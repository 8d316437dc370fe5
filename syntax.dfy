/** The slice of the Rust syntax tree the macros look at. Values that the
    macros only pass through (visibilities, expressions) are opaque, and
    every span is an abstract source position. */
module Syntax {
  import opened Diag

  /** A visibility qualifier; `Inherited` is the absence of one. */
  datatype Visibility = Inherited | Public | Crate | Restricted(path: string)

  /** A literal token. */
  datatype Lit = Str(s: string) | Bool(b: bool)

  /** An expression, kept opaque unless it is a literal. */
  datatype Expr = LitExpr(lit: Lit) | OpaqueExpr(code: string)

  /** Tokens of an option list: identifiers, the punctuation the option
      grammar uses, literals, a visibility, and an opaque expression. */
  datatype TokenKind =
    | Ident(name: string)
    | EqSign
    | Comma
    | LitTok(lit: Lit)
    | VisTok(vis: Visibility)
    | CodeTok(code: string)

  datatype Token = Token(kind: TokenKind, span: nat)

  /** A delimited token sequence; `end` is the span of its closing
      delimiter, where "unexpected end of input" is reported. */
  datatype TokenStream = TokenStream(tokens: seq<Token>, end: nat)

  /** The span of the token at `pos`, or of the end of the stream. */
  function SpanAt(ts: TokenStream, pos: nat): nat
  {
    if pos < |ts.tokens| then ts.tokens[pos].span else ts.end
  }

  /** The three forms of an attribute's content: `#[p]`, `#[p(...)]` and
      `#[p = value]`. */
  datatype Meta =
    | PathMeta
    | ListMeta(args: TokenStream)
    | NameValueMeta(value: Expr, valueSpan: nat)

  /** An attribute whose path is a single identifier, with its span. */
  datatype Attribute = Attribute(path: string, meta: Meta, span: nat)
}
