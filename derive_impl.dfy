/** documented-macros/src/derive_impl.rs: what the derive macros generate,
    as data. `Documented` yields one doc value, `DocumentedFields` one doc
    value per member plus the name-to-index table, `DocumentedVariants` one
    match arm per variant. */
module DeriveImpl {
  import opened Diag
  import opened Syntax
  import opened Derive
  import Util

  /** Strict (`&'static str`) or optional (`Option<&'static str>`) docs. */
  datatype DocType = Str | OptStr

  /** The expression generated for one doc value. */
  datatype DocValue =
    | DocsLit(docs: string)      // `"docs"`
    | SomeDocs(docs: string)     // `Some("docs")`
    | DefaultExpr(expr: Expr)    // the user's default, verbatim
    | NoneValue                  // `None`

  const MissingDocsMsg := "Missing doc comments"

  /** `docs_handler_opt`: docs win; without docs the user's default is used
      unwrapped; with neither, strict mode fails and optional mode gives
      `None`. */
  function DocsHandler(ty: DocType, docs: Option<string>, default: Option<Expr>, span: nat): (r: Result<DocValue>)
    ensures r.Err? <==> ty.Str? && docs.None? && default.None?
    ensures r.Err? ==> r.error == Error(span, MissingDocsMsg)
    ensures docs.Some? ==> r == Ok(if ty.Str? then DocsLit(docs.value) else SomeDocs(docs.value))
    ensures docs.None? && default.Some? ==> r == Ok(DefaultExpr(default.value))
    ensures ty.OptStr? && docs.None? && default.None? ==> r == Ok(NoneValue)
  {
    match (docs, default)
    case (Some(d), _) => Ok(if ty.Str? then DocsLit(d) else SomeDocs(d))
    case (None, Some(e)) => Ok(DefaultExpr(e))
    case (None, None) => if ty.Str? then Err(Error(span, MissingDocsMsg)) else Ok(NoneValue)
  }

  /** `trait_ident_for`: the prefix, with `Opt` appended in optional mode. */
  function TraitIdentFor(ty: DocType, prefix: string): (r: string)
    ensures ty.Str? ==> r == prefix
    ensures ty.OptStr? ==> |r| == |prefix| + 3 && r[..|prefix|] == prefix && r[|prefix|..] == "Opt"
  {
    if ty.Str? then prefix else prefix + "Opt"
  }

  // ---------------------------------------------------------------------
  // Derive input

  datatype Field = Field(ident: Option<string>, attrs: seq<Attribute>, span: nat)
  datatype FieldsShape = Unit | Unnamed | Named
  datatype Variant = Variant(ident: string, shape: FieldsShape, attrs: seq<Attribute>, span: nat)

  /** The body of the deriving type; `typeTokenSpan` is the span of the
      `struct` or `union` keyword. */
  datatype InputData =
    | EnumData(variants: seq<Variant>)
    | StructData(fields: seq<Field>, typeTokenSpan: nat)
    | UnionData(fields: seq<Field>, typeTokenSpan: nat)

  /** `span` covers the whole input, `identSpan` its name. */
  datatype DeriveInput = DeriveInput(ident: string, identSpan: nat, attrs: seq<Attribute>, data: InputData, span: nat)

  /** A documentable member: a field or a variant, with its own span,
      optional name and attributes. */
  datatype Member = Member(span: nat, ident: Option<string>, attrs: seq<Attribute>)

  function VariantMember(v: Variant): Member {
    Member(v.span, Some(v.ident), v.attrs)
  }

  function FieldMember(f: Field): Member {
    Member(f.span, f.ident, f.attrs)
  }

  /** The members of the input in declaration order (the `fields_attrs`
      list of `documented_fields_impl`). */
  function Members(data: InputData): (r: seq<Member>)
    ensures data.EnumData? ==>
              |r| == |data.variants| && forall i :: 0 <= i < |r| ==> r[i] == VariantMember(data.variants[i])
    ensures !data.EnumData? ==>
              |r| == |data.fields| && forall i :: 0 <= i < |r| ==> r[i] == FieldMember(data.fields[i])
  {
    match data
    case EnumData(vs) => seq(|vs|, i requires 0 <= i < |vs| => VariantMember(vs[i]))
    case StructData(fs, _) => seq(|fs|, i requires 0 <= i < |fs| => FieldMember(fs[i]))
    case UnionData(fs, _) => seq(|fs|, i requires 0 <= i < |fs| => FieldMember(fs[i]))
  }

  // ---------------------------------------------------------------------
  // Configuration and docs of one target

  /** The container's config: the default overlaid by the container's
      helper attributes. */
  function ContainerConfig(attrs: seq<Attribute>, attrName: string): (r: Result<DeriveConfig>)
    ensures r.Ok? <==> CustomisationsFromAttrs(attrs, attrName).Ok?
    ensures r.Ok? ==> r.value == WithCustomisations(DefaultConfig(), CustomisationsFromAttrs(attrs, attrName).value)
  {
    var c :- CustomisationsFromAttrs(attrs, attrName);
    Ok(WithCustomisations(DefaultConfig(), c))
  }

  /** A member's config: the container's config overlaid by the member's
      helper attributes. A member option overrides the container's; a
      field the member leaves unset keeps the container's value. */
  function MemberConfig(base: DeriveConfig, attrs: seq<Attribute>, attrName: string): (r: Result<DeriveConfig>)
    ensures r.Ok? <==> CustomisationsFromAttrs(attrs, attrName).Ok?
    ensures r.Ok? ==> var c := CustomisationsFromAttrs(attrs, attrName).value;
              && r.value.trim == c.trim.GetOr(base.trim)
              && r.value.defaultValue == (if c.defaultValue.Some? then c.defaultValue else base.defaultValue)
  {
    var c :- CustomisationsFromAttrs(attrs, attrName);
    Ok(WithCustomisations(base, c))
  }

  /** The doc value of one member: resolve its config, read its docs with
      that config's trim setting, then apply the docs policy. */
  function MemberDocs(m: Member, base: DeriveConfig, ty: DocType, attrName: string): (r: Result<DocValue>)
    ensures r.Ok? <==> (
              && MemberConfig(base, m.attrs, attrName).Ok?
              && var config := MemberConfig(base, m.attrs, attrName).value;
                 && Util.GetDocs(m.attrs, config.trim).Ok?
                 && (ty.OptStr? || Util.GetDocs(m.attrs, config.trim).value.Some? || config.defaultValue.Some?))
    ensures MemberConfig(base, m.attrs, attrName).Err? ==> r == Err(MemberConfig(base, m.attrs, attrName).error)
    ensures MemberConfig(base, m.attrs, attrName).Ok? ==>
              var config := MemberConfig(base, m.attrs, attrName).value;
              var docs := Util.GetDocs(m.attrs, config.trim);
              && (docs.Err? ==> r == Err(docs.error))
              && (docs.Ok? ==> r == DocsHandler(ty, docs.value, config.defaultValue, m.span))
  {
    var config :- MemberConfig(base, m.attrs, attrName);
    var docs :- Util.GetDocs(m.attrs, config.trim);
    DocsHandler(ty, docs, config.defaultValue, m.span)
  }

  /** Every member's doc value in order; the first member that fails
      aborts the whole derive with its error. */
  function CollectDocs(ms: seq<Member>, base: DeriveConfig, ty: DocType, attrName: string): (r: Result<seq<DocValue>>)
    ensures r.Ok? <==> forall i :: 0 <= i < |ms| ==> MemberDocs(ms[i], base, ty, attrName).Ok?
    ensures r.Ok? ==> (
              && |r.value| == |ms|
              && forall i :: 0 <= i < |ms| ==> MemberDocs(ms[i], base, ty, attrName) == Ok(r.value[i]))
    ensures r.Err? ==> exists i :: (
              && 0 <= i < |ms|
              && MemberDocs(ms[i], base, ty, attrName) == Err(r.error)
              && forall j :: 0 <= j < i ==> MemberDocs(ms[j], base, ty, attrName).Ok?)
  {
    var f := (m: Member) => MemberDocs(m, base, ty, attrName);
    CollectMapped(ms, f);
    CollectResults(MapResults(ms, f))
  }

  // ---------------------------------------------------------------------
  // The name-to-index table

  /** One entry of the generated name-to-index map. */
  datatype Arm = Arm(name: string, index: nat)

  /** `enumerate().filter_map(...)`: an entry for every named member, with
      the member's index among all members, in declaration order. */
  function Arms(idents: seq<Option<string>>): (r: seq<Arm>)
    ensures forall k :: 0 <= k < |r| ==> r[k].index < |idents| && idents[r[k].index] == Some(r[k].name)
    ensures forall i :: 0 <= i < |idents| && idents[i].Some? ==> Arm(idents[i].value, i) in r
    ensures forall k, l :: 0 <= k < l < |r| ==> r[k].index < r[l].index
  {
    if idents == [] then []
    else
      var n := |idents| - 1;
      var init := idents[..n];
      var rest := Arms(init);
      assert forall i :: 0 <= i < n ==> init[i] == idents[i];
      if idents[n].Some? then rest + [Arm(idents[n].value, n)] else rest
  }

  function Idents(ms: seq<Member>): (r: seq<Option<string>>)
    ensures |r| == |ms| && forall i :: 0 <= i < |ms| ==> r[i] == ms[i].ident
  {
    seq(|ms|, i requires 0 <= i < |ms| => ms[i].ident)
  }

  /** The generated lookup: the index paired with `name`, if any. */
  function Lookup(arms: seq<Arm>, name: string): (r: Option<nat>)
    ensures r.None? <==> forall k :: 0 <= k < |arms| ==> arms[k].name != name
    ensures r.Some? ==> exists k :: 0 <= k < |arms| && arms[k] == Arm(name, r.value)
  {
    if arms == [] then None
    else if arms[0].name == name then Some(arms[0].index)
    else
      var r := Lookup(arms[1..], name);
      assert forall k :: 1 <= k < |arms| ==> arms[1..][k - 1] == arms[k];
      r
  }

  /** No name is given to two members (the generated map would not build). */
  predicate DistinctNames(idents: seq<Option<string>>) {
    forall i, j :: 0 <= i < j < |idents| && idents[i].Some? ==> idents[i] != idents[j]
  }

  // ---------------------------------------------------------------------
  // The three derives

  datatype DocumentedOutput = DocumentedOutput(traitIdent: string, docs: DocValue)

  datatype FieldsOutput = FieldsOutput(traitIdent: string, fieldDocs: seq<DocValue>, arms: seq<Arm>)

  /** One arm `Self::Ident` / `Self::Ident(..)` / `Self::Ident{..}` => docs. */
  datatype VariantArm = VariantArm(ident: string, shape: FieldsShape, docs: DocValue)

  datatype VariantsOutput = VariantsOutput(traitIdent: string, arms: seq<VariantArm>)

  /** `documented_impl`. */
  function DocumentedImpl(input: DeriveInput, ty: DocType): (r: Result<DocumentedOutput>)
    ensures r.Ok? ==> r.value.traitIdent == TraitIdentFor(ty, "Documented")
    ensures r.Ok? <==> (
              && ContainerConfig(input.attrs, "documented").Ok?
              && var config := ContainerConfig(input.attrs, "documented").value;
                 && Util.GetDocs(input.attrs, config.trim).Ok?
                 && (ty.OptStr? || Util.GetDocs(input.attrs, config.trim).value.Some? || config.defaultValue.Some?))
    ensures ContainerConfig(input.attrs, "documented").Err? ==> r == Err(ContainerConfig(input.attrs, "documented").error)
    ensures ContainerConfig(input.attrs, "documented").Ok? ==>
              var config := ContainerConfig(input.attrs, "documented").value;
              var docs := Util.GetDocs(input.attrs, config.trim);
              && (docs.Err? ==> r == Err(docs.error))
              && (docs.Ok? && DocsHandler(ty, docs.value, config.defaultValue, input.span).Err? ==>
                    r == Err(DocsHandler(ty, docs.value, config.defaultValue, input.span).error))
              && (r.Ok? ==> Ok(r.value.docs) == DocsHandler(ty, docs.value, config.defaultValue, input.span))
  {
    var config :- ContainerConfig(input.attrs, "documented");
    var docs :- Util.GetDocs(input.attrs, config.trim);
    var value :- DocsHandler(ty, docs, config.defaultValue, input.span);
    Ok(DocumentedOutput(TraitIdentFor(ty, "Documented"), value))
  }

  /** `documented_fields_impl`: one doc value per member, positional ones
      included, in declaration order, and a lookup pair for every named
      member. */
  function DocumentedFieldsImpl(input: DeriveInput, ty: DocType): (r: Result<FieldsOutput>)
    ensures r.Ok? ==> r.value.traitIdent == TraitIdentFor(ty, "DocumentedFields")
    ensures ContainerConfig(input.attrs, "documented_fields").Err? ==>
              r == Err(ContainerConfig(input.attrs, "documented_fields").error)
    ensures ContainerConfig(input.attrs, "documented_fields").Ok? ==>
              var docs := CollectDocs(Members(input.data), ContainerConfig(input.attrs, "documented_fields").value, ty, "documented_fields");
              && (r.Ok? <==> docs.Ok?)
              && (docs.Err? ==> r == Err(docs.error))
    ensures r.Ok? ==> (
              && ContainerConfig(input.attrs, "documented_fields").Ok?
              && var base := ContainerConfig(input.attrs, "documented_fields").value;
                 var ms := Members(input.data);
                 && |r.value.fieldDocs| == |ms|
                 && (forall i :: 0 <= i < |ms| ==> MemberDocs(ms[i], base, ty, "documented_fields") == Ok(r.value.fieldDocs[i]))
                 && r.value.arms == Arms(Idents(ms)))
  {
    var base :- ContainerConfig(input.attrs, "documented_fields");
    var ms := Members(input.data);
    var docs :- CollectDocs(ms, base, ty, "documented_fields");
    Ok(FieldsOutput(TraitIdentFor(ty, "DocumentedFields"), docs, Arms(Idents(ms))))
  }

  const VariantsOnlyMsg := "DocumentedVariants can only be used on enums.\nFor structs and unions, use DocumentedFields instead."

  /** `documented_variants_impl`: only enums are accepted; one arm per
      variant, in order. */
  function DocumentedVariantsImpl(input: DeriveInput, ty: DocType): (r: Result<VariantsOutput>)
    ensures ContainerConfig(input.attrs, "documented_variants").Err? ==>
              r == Err(ContainerConfig(input.attrs, "documented_variants").error)
    ensures !input.data.EnumData? && ContainerConfig(input.attrs, "documented_variants").Ok? ==>
              r == Err(Error(input.data.typeTokenSpan, VariantsOnlyMsg))
    ensures input.data.EnumData? && ContainerConfig(input.attrs, "documented_variants").Ok? ==>
              var docs := CollectDocs(Members(input.data), ContainerConfig(input.attrs, "documented_variants").value, ty, "documented_variants");
              && (r.Ok? <==> docs.Ok?)
              && (docs.Err? ==> r == Err(docs.error))
    ensures r.Ok? ==> (
              && input.data.EnumData?
              && ContainerConfig(input.attrs, "documented_variants").Ok?
              && var vs := input.data.variants;
                 var base := ContainerConfig(input.attrs, "documented_variants").value;
                 && r.value.traitIdent == TraitIdentFor(ty, "DocumentedVariants")
                 && |r.value.arms| == |vs|
                 && forall i :: 0 <= i < |vs| ==>
                      && r.value.arms[i].ident == vs[i].ident
                      && r.value.arms[i].shape == vs[i].shape
                      && MemberDocs(VariantMember(vs[i]), base, ty, "documented_variants") == Ok(r.value.arms[i].docs))
  {
    var base :- ContainerConfig(input.attrs, "documented_variants");
    var vs :- match input.data
      case EnumData(vs) => Ok(vs)
      case StructData(_, s) => Err(Error(s, VariantsOnlyMsg))
      case UnionData(_, s) => Err(Error(s, VariantsOnlyMsg));
    var ms := Members(input.data);
    var docs :- CollectDocs(ms, base, ty, "documented_variants");
    Ok(VariantsOutput(
      TraitIdentFor(ty, "DocumentedVariants"),
      seq(|vs|, i requires 0 <= i < |vs| => VariantArm(vs[i].ident, vs[i].shape, docs[i]))))
  }

  /** The generated `get_variant_docs`: the docs of the first arm naming
      the variant. */
  function VariantDocs(arms: seq<VariantArm>, ident: string): (r: Option<DocValue>)
    ensures r.None? <==> forall k :: 0 <= k < |arms| ==> arms[k].ident != ident
  {
    if arms == [] then None
    else if arms[0].ident == ident then Some(arms[0].docs)
    else VariantDocs(arms[1..], ident)
  }

  // ---------------------------------------------------------------------
  // Lemmas

  /** The lookup pairs are exactly the named members with their indices. */
  lemma ArmsExact(idents: seq<Option<string>>, name: string, i: nat)
    ensures Arm(name, i) in Arms(idents) <==> i < |idents| && idents[i] == Some(name)
  {
    var arms := Arms(idents);
    if Arm(name, i) in arms {
      var k :| 0 <= k < |arms| && arms[k] == Arm(name, i);
    }
  }

  /** With distinct names, looking a name up gives the index of the member
      that has it, and an unknown name gives nothing. */
  lemma LookupCorrect(idents: seq<Option<string>>, name: string)
    requires DistinctNames(idents)
    ensures forall i :: 0 <= i < |idents| && idents[i] == Some(name) ==> Lookup(Arms(idents), name) == Some(i)
    ensures Some(name) !in idents ==> Lookup(Arms(idents), name).None?
  {
    var arms := Arms(idents);
    var r := Lookup(arms, name);
    forall i | 0 <= i < |idents| && idents[i] == Some(name) ensures r == Some(i) {
      assert Arm(name, i) in arms;
      var k :| 0 <= k < |arms| && arms[k] == Arm(name, r.value);
      assert idents[r.value] == Some(name);
      assert !(r.value < i);
      assert !(i < r.value);
    }
    if Some(name) !in idents {
      forall k | 0 <= k < |arms| ensures arms[k].name != name {
        assert idents[arms[k].index] == Some(arms[k].name);
      }
    }
  }

  /** One member's attributes never affect another member's doc value. */
  lemma MembersIndependent(ms: seq<Member>, j: nat, m: Member, base: DeriveConfig, ty: DocType, attrName: string)
    requires j < |ms|
    requires CollectDocs(ms, base, ty, attrName).Ok? && CollectDocs(ms[j := m], base, ty, attrName).Ok?
    ensures forall i :: 0 <= i < |ms| && i != j ==>
              CollectDocs(ms[j := m], base, ty, attrName).value[i] == CollectDocs(ms, base, ty, attrName).value[i]
  {
    var a := CollectDocs(ms, base, ty, attrName).value;
    var b := CollectDocs(ms[j := m], base, ty, attrName).value;
    forall i | 0 <= i < |ms| && i != j ensures b[i] == a[i] {
      assert ms[j := m][i] == ms[i];
      assert MemberDocs(ms[i], base, ty, attrName) == Ok(a[i]);
      assert MemberDocs(ms[j := m][i], base, ty, attrName) == Ok(b[i]);
    }
  }

  /** The first member whose docs fail aborts `DocumentedFields` with that
      member's error. */
  lemma FieldsFailureAborts(input: DeriveInput, ty: DocType, i: nat)
    requires ContainerConfig(input.attrs, "documented_fields").Ok?
    requires i < |Members(input.data)|
    requires MemberDocs(Members(input.data)[i], ContainerConfig(input.attrs, "documented_fields").value, ty, "documented_fields").Err?
    requires forall j :: 0 <= j < i ==>
               MemberDocs(Members(input.data)[j], ContainerConfig(input.attrs, "documented_fields").value, ty, "documented_fields").Ok?
    ensures DocumentedFieldsImpl(input, ty) ==
            Err(MemberDocs(Members(input.data)[i], ContainerConfig(input.attrs, "documented_fields").value, ty, "documented_fields").error)
  {
    var base := ContainerConfig(input.attrs, "documented_fields").value;
    FirstFailure(Members(input.data), base, ty, "documented_fields", i);
  }

  /** The first failing variant aborts `DocumentedVariants` with its error. */
  lemma VariantsFailureAborts(input: DeriveInput, ty: DocType, i: nat)
    requires input.data.EnumData?
    requires ContainerConfig(input.attrs, "documented_variants").Ok?
    requires i < |input.data.variants|
    requires MemberDocs(VariantMember(input.data.variants[i]), ContainerConfig(input.attrs, "documented_variants").value, ty, "documented_variants").Err?
    requires forall j :: 0 <= j < i ==>
               MemberDocs(VariantMember(input.data.variants[j]), ContainerConfig(input.attrs, "documented_variants").value, ty, "documented_variants").Ok?
    ensures DocumentedVariantsImpl(input, ty) ==
            Err(MemberDocs(VariantMember(input.data.variants[i]), ContainerConfig(input.attrs, "documented_variants").value, ty, "documented_variants").error)
  {
    var base := ContainerConfig(input.attrs, "documented_variants").value;
    FirstFailure(Members(input.data), base, ty, "documented_variants", i);
  }

  /** The collection fails with the error of the first failing member. */
  lemma FirstFailure(ms: seq<Member>, base: DeriveConfig, ty: DocType, attrName: string, i: nat)
    requires i < |ms| && MemberDocs(ms[i], base, ty, attrName).Err?
    requires forall j :: 0 <= j < i ==> MemberDocs(ms[j], base, ty, attrName).Ok?
    ensures CollectDocs(ms, base, ty, attrName) == Err(MemberDocs(ms[i], base, ty, attrName).error)
  {
    var r := CollectDocs(ms, base, ty, attrName);
    var k :| 0 <= k < |ms| && MemberDocs(ms[k], base, ty, attrName) == Err(r.error)
             && forall j :: 0 <= j < k ==> MemberDocs(ms[j], base, ty, attrName).Ok?;
    assert k == i;
  }

  /** A struct or union never derives `DocumentedVariants`. */
  lemma VariantsOnlyOnEnums(input: DeriveInput, ty: DocType)
    requires !input.data.EnumData?
    ensures DocumentedVariantsImpl(input, ty).Err?
  {
  }

  /** A strict derive on a target with neither docs nor a default fails. */
  lemma StrictNeedsDocs(input: DeriveInput)
    requires ContainerConfig(input.attrs, "documented").Ok?
    requires ContainerConfig(input.attrs, "documented").value.defaultValue.None?
    requires Util.NoDocs(input.attrs)
    ensures DocumentedImpl(input, DocType.Str) == Err(Error(input.span, MissingDocsMsg))
  {
  }

  /** An optional derive never fails for lack of docs: with a valid
      configuration and literal doc attributes it always succeeds. */
  lemma OptionalNeverMissing(input: DeriveInput)
    requires ContainerConfig(input.attrs, "documented").Ok?
    requires Util.AllDocsLiteral(input.attrs)
    ensures DocumentedImpl(input, OptStr).Ok?
  {
  }

  /** With distinct variant names, the generated `get_variant_docs` gives
      every variant its own doc value. */
  lemma VariantDocsOfEach(input: DeriveInput, ty: DocType, i: nat)
    requires DocumentedVariantsImpl(input, ty).Ok?
    requires i < |input.data.variants|
    requires forall a, b :: 0 <= a < b < |input.data.variants| ==> input.data.variants[a].ident != input.data.variants[b].ident
    ensures VariantDocs(DocumentedVariantsImpl(input, ty).value.arms, input.data.variants[i].ident) ==
            Some(DocumentedVariantsImpl(input, ty).value.arms[i].docs)
  {
    var arms := DocumentedVariantsImpl(input, ty).value.arms;
    VariantDocsAt(arms, i);
  }

  lemma {:induction false} VariantDocsAt(arms: seq<VariantArm>, i: nat)
    requires i < |arms|
    requires forall a :: 0 <= a < i ==> arms[a].ident != arms[i].ident
    ensures VariantDocs(arms, arms[i].ident) == Some(arms[i].docs)
    decreases i
  {
    if i > 0 {
      assert arms[0].ident != arms[i].ident;
      assert forall a :: 0 <= a < i - 1 ==> arms[1..][a] == arms[a + 1];
      VariantDocsAt(arms[1..], i - 1);
    }
  }
}
