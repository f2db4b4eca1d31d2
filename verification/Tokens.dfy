/** The tokens that the lexer hands to the parser, and the classes of tokens
    that the parser's switch statements distinguish. */
module Tokens {

  datatype Keyword =
    | SWITCH | CASE | DEFAULT | IF | ELSE | FOR | WHILE | DO | CONTINUE | GOTO | BREAK | RETURN
    | TYPEDEF | EXTERN | STATIC | AUTO | REGISTER
    | VOID | CHAR | SHORT | INT | LONG | FLOAT | DOUBLE | SIGNED | UNSIGNED
    | BOOL | COMPLEX | IMAGINARY
    | CONST | RESTRICT | VOLATILE
    | STRUCT | UNION | ENUM
    | INLINE

  datatype Punct =
    | ADD | SUB | MUL | DIV | MOD
    | EQ | NE | GT | LT | GTE | LTE
    | LAND | LOR | LNOT
    | BNOT | BAND | BOR | BXOR | BLSHIFT | BRSHIFT
    | ASSIGN | ASGN_ADD | ASGN_SUB | ASGN_MUL | ASGN_DIV | ASGN_MOD
    | ASGN_BAND | ASGN_BOR | ASGN_BXOR | ASGN_BLSHIFT | ASGN_BRSHIFT
    | SEMICOLON | COLON | COMMA
    | LPAREN | RPAREN | LBRACKET | RBRACKET | LBRACE | RBRACE
    | DOT | ARROW | INC | DEC | QUESTION

  /** A token's kind together with the member of its value union that the kind selects. */
  datatype Token =
    | Identifier(name: string)
    | Keyword(kw: Keyword)
    | Integer(value: int)
    | Character(code: int)
    | Floating(number: real)
    | StringLit(text: string)
    | Punct(p: Punct)
    | Eof

  /** A token's kind alone: it tells punctuators apart, but not keywords. */
  datatype Kind =
    | IdentifierKind | KeywordKind | IntegerKind | CharacterKind | FloatingKind | StringKind
    | PunctKind(p: Punct)
    | EofKind

  function KindOf(t: Token): Kind {
    match t
    case Identifier(_) => IdentifierKind
    case Keyword(_) => KeywordKind
    case Integer(_) => IntegerKind
    case Character(_) => CharacterKind
    case Floating(_) => FloatingKind
    case StringLit(_) => StringKind
    case Punct(p) => PunctKind(p)
    case Eof => EofKind
  }

  /** What the parser keeps of a declared name: the symbol it refers to. */
  datatype Symbol = Symbol(ident: string, tag: nat)

  /** The answers of the symbol table while one statement is parsed; the parser never changes them. */
  type Env = map<string, Symbol>

  /** Every name is answered with a symbol of that very name. */
  ghost predicate ExactEnv(env: Env) {
    forall n :: n in env ==> env[n].ident == n
  }

  /** The next token as the parser peeks at it: past the last token it sees end of file. */
  function Head(ts: seq<Token>): Token {
    if ts == [] then Eof else ts[0]
  }

  predicate IsConstant(t: Token) {
    t.Integer? || t.Character? || t.Floating?
  }

  /** The operators that start a unary expression. `!` reaches the parser as BNOT. */
  predicate IsPrefix(t: Token) {
    t.Punct? && match t.p
                case INC | DEC | BAND | MUL | ADD | SUB | BNOT => true
                case _ => false
  }

  predicate IsIncDec(t: Token) {
    t == Punct(INC) || t == Punct(DEC)
  }

  predicate IsMember(t: Token) {
    t == Punct(DOT) || t == Punct(ARROW)
  }

  predicate IsAssign(t: Token) {
    t.Punct? && match t.p
                case ASSIGN | ASGN_ADD | ASGN_SUB | ASGN_MUL | ASGN_DIV | ASGN_MOD
                | ASGN_BAND | ASGN_BOR | ASGN_BXOR | ASGN_BLSHIFT | ASGN_BRSHIFT => true
                case _ => false
  }

  predicate IsParen(t: Token) {
    t == Punct(LPAREN) || t == Punct(RPAREN)
  }

  /** The keywords that start a declaration. */
  predicate IsDeclSpec(t: Token) {
    t.Keyword? && match t.kw
                  case TYPEDEF | EXTERN | STATIC | AUTO | REGISTER | VOID | CHAR | SHORT | INT | LONG
                  | FLOAT | DOUBLE | SIGNED | UNSIGNED | STRUCT | UNION | ENUM => true
                  case _ => false
  }

  /** The keywords that start a statement. */
  predicate IsStmtKeyword(t: Token) {
    t.Keyword? && match t.kw
                  case IF | CASE | DEFAULT | SWITCH | WHILE | DO | FOR
                  | BREAK | CONTINUE | GOTO | RETURN => true
                  case _ => false
  }

  // The layers of the expression grammar, one for each parsing function of the program.
  const PRIMARY: nat := 0
  const POSTFIX: nat := 1
  const UNARY: nat := 2
  const COND: nat := 8
  const ASSIGNMENT: nat := 9
  const EXPR: nat := 10

  type Layer = k: nat | k <= 10

  /** The layers that are left-associative loops: five binary ones and the comma. */
  predicate IsLoop(k: nat) {
    3 <= k <= 7 || k == 10
  }

  /** The layer whose loop consumes operator `t`; 0 when no loop does. */
  function OpLayer(t: Token): (k: Layer)
    ensures k == 0 || (IsLoop(k) && t.Punct?)
  {
    if !t.Punct? then 0
    else
      match t.p
      case MUL | DIV | MOD => 3
      case ADD | SUB => 4
      case EQ | NE | LT | GT | LTE | GTE => 5
      case BOR | BAND | BNOT | BLSHIFT | BRSHIFT => 6
      case LOR | LAND | LNOT => 7
      case COMMA => 10
      case _ => 0
  }
}
