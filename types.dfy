/** Values shared by every part of the renamer: the rename map, the dialect,
    the binding tokens and the collaborators whose code is not part of this model. */
module Types {

  /** Original symbol name to renamed symbol name; read-only for a whole run. */
  type RenameMap = map<string, string>

  /** The two dialects of the framework's binding syntax. */
  datatype RenameMode = Polymer05 | Polymer08

  /** The exception the binding-expression renamer raises on malformed input. */
  datatype ParseError = JavaScriptParsingError(message: string)

  /** A computation that either yields a value or aborts with a parse error. */
  datatype Result<+T> = Ok(value: T) | Err(error: ParseError)

  /** Kinds of token produced by the databinding lexer. */
  datatype TokenKind =
    | Str
    | OpenCurlyBraces
    | CloseCurlyBraces
    | OpenSquareBraces
    | CloseSquareBraces

  /** A lexer token; a delimiter's value is its own text. */
  datatype Token = Token(kind: TokenKind, value: string)

  /** The collaborators the coordinator calls but whose code is not modelled:
      the databinding lexer, the two expression renamers of JsRenamer, and the
      hyphen/camel case conversions. Each is a total function of its inputs. */
  datatype Collaborators = Collaborators(
    lex: string -> seq<Token>,
    renamePolymerJsExpression: (RenameMap, string) -> Result<string>,
    renameProperties: (RenameMap, string) -> string,
    lowerHyphenToLowerCamel: string -> string,
    lowerCamelToLowerHyphen: string -> string)

  /** The text the tokens were lexed from, when the lexer is lossless. */
  function ConcatValues(ts: seq<Token>): string
    decreases |ts|
  {
    if ts == [] then "" else ConcatValues(ts[..|ts| - 1]) + ts[|ts| - 1].value
  }

  /** The collaborators change nothing under map m: every expression renames
      to itself, every script body is left alone and the lexer is lossless. */
  ghost predicate Transparent(c: Collaborators, m: RenameMap)
  {
    && (forall s :: c.renamePolymerJsExpression(m, s) == Ok(s))
    && (forall s :: c.renameProperties(m, s) == s)
    && (forall s :: ConcatValues(c.lex(s)) == s)
  }
}
