# A verified model of the qcc front end

qcc is an early C99 front end. This project models the four components of it that hold state, and
proves what they do on every input:

- the recursive-descent **parser** (`src/parser.c`),
- the open-addressing **hash map** (`src/hashmap.c`),
- the incremental **lexer** (`src/lexer.c`),
- the scoped **symbol table** (`src/symbol.c`).

`dafny verify dfyconfig.toml` verifies the whole project.

## How the model is laid out

Each component comes in two forms: objects updated in place by methods that follow the C functions
branch by branch, and functions on values that say what those methods compute. The method contracts
tie the two together; the theorems are about the functions.

- **Parser.** `ExprParsing` and `StmtParsing` read a list of tokens as a *concrete tree*, which
  records everything consumed: redundant parentheses, missing operands, empty `else` branches,
  swallowed assignment operators. `ExprGrammar` and `StmtGrammar` say independently how a tree is
  printed (`Print`), which trees respect the precedence layers (`Legal`), and which next token would
  not continue a tree (`Stops`). The node the program builds is what `Erase` leaves of the concrete
  tree. `Parser.dfy` holds the methods; they pull tokens from the lexer object one at a time with one
  token of lookahead, look identifiers up in the symbol table object, and their contracts say which node
  they return and which tokens they leave. `ExprNodes` and `StmtNodes` say, on tokens alone, which node
  each form builds and which operator binds tighter, with the operators of each level listed.
  A fatal error is a failing result; `Undefined` marks the places where the C code reads a node that
  is uninitialised or of another kind.
- **Precedence** is that of the code, which is flatter than section 6.5 of ISO/IEC 9899:1999: all
  comparisons share one layer, `| & ~ << >>` share one, `&& ||` share one, `^` is in none, and a
  primary takes one postfix operator.
- **Hash map.** `HashTable` has the table as a sequence of slots, with probing, insertion, growth and
  removal as functions, and the finite map a table stands for (`Contents`). The hash is an arbitrary
  function of the key, so nothing depends on FNV. `HashRuns` is about whole runs of operations and
  about lookups, `HashMap` is the object.
- **Lexer.** `Lexing` has the scanner as functions on the text and a position. `TokenQueue` is the
  peek cache over a stack of sources, as a state machine. `NumberTheorems` has the values of integer
  constants and the characters of blanks and words. `Lexer.dfy` has the objects: a source with
  its cursor and line, and the lexer with its keyword table, cache and stack.
- **Symbol table.** `SymbolTable` has scopes as objects in a tree with a moving current scope;
  `ScopeStack` has the stack of tables visible from a point. Every method of the table is one step of
  that stack.

Where the code departs from what one would expect of it, the model follows the code, and says so by
theorem: an assignment loses its operator (`AssignmentLosesOperator`), a `for` followed by a sibling
loses its body (`SiblingReplacesBody`), an `else` may step over an empty one (`EmptyElseIsStepped`), a
lookup may answer with a longer key (`LookupsRightIff`), so that an identifier may be taken for a
keyword it starts, and `do` for `double` (`PlainIff`), and the last end of file is lost when it is peeked at
(`LastEofIsLost`). Conservation, the binding of `else`, lookup and the reading of words are each proved
under a condition that is necessary and sufficient; for `else` there is one on the concrete tree
(`ElseBindsNearest`) and one on the tokens alone (`ElsesOnTokens`). The theorems on the queue exclude
just that one token.

Many proofs start with `hide`, which only keeps definitions away from the solver.

## Model

| member | source | states |
|---|---|---|
| ExprTheorems.ParserIsGrammar | src/parser.c:400-739 | On every token stream, a parsing function of any precedence layer answers a tree and leaves a rest if and only if the tree is legal for that layer, the stream is its print followed by the rest, and the first token of the rest does not continue it. Missing operands, redundant parentheses and assignments are included. |
| ExprTheorems.RoundTrip | src/parser.c:400-739 | Printing a legal expression and parsing it in front of any token that does not continue it gives the expression back and leaves exactly what followed. |
| ExprTheorems.Sound | src/parser.c:400-739 | Every successful parse comes from a legal tree whose print is exactly the tokens consumed, and stops at a token that does not continue it. |
| ExprTheorems.Unambiguous | src/parser.c:400-739 | A token stream is read as at most one legal tree, ending at one place. |
| ExprTheorems.PrintInjective | src/parser.c:400-739 | Distinct legal expressions never print the same tokens. |
| Conservation.NodeKeepsTokens | src/parser.c:400-739 | Parentheses aside, the tokens of an expression's node are those of the expression with exactly one struck out for each assignment, the others in order; with no assignment they are all of them. |
| Conservation.TokensConserved | src/parser.c:400-739 | Parentheses aside, the in-order yield of the node built is the tokens consumed with one struck out for each assignment, none doubled or moved; nothing is struck out if and only if no assignment operator was consumed. |
| Conservation.AssignmentLosesOperator | src/parser.c:691-719 | Of `a = b`, for any assignment operator, the program builds a node whose operator is the token `b` and whose right side is missing. |
| ExprNodes.Precedence | src/parser.c:554-739 | Of `a op1 b op2 c`, for constants, declared names or anything in parentheses, the operator of the tighter level takes `b`, the first one if both are of the same level; the levels, from `* / %` over `+ -`, the six comparisons, the five bitwise operators and the three logical ones to the comma, are given as literal sets. |
| ExprNodes.ParseNests | src/parser.c:463-739 | On every stream, in the node of an expression parsed without parentheses, with any number of operators and missing operands, each operator binds at least as tight as the one it is an operand of, and tighter on the right of a binary one. |
| ExprNodes.LayerOfLevel | src/parser.c:554-739 | Each loop takes the operators of one literal set and no other; `^` is in none. |
| ExprNodes.LiteralSets | src/parser.c:522-711 | The prefix operators are these seven and the assignment operators these eleven. |
| ExprNodes.PrefixBuilds | src/parser.c:536-540 | A prefix operator builds a unary node with its operand on the left. |
| ExprNodes.StepBuilds | src/parser.c:498-505 | `++` or `--` after a primary builds a postfix node without a right side. |
| ExprNodes.IndexBuilds | src/parser.c:469-482 | `a[i]` builds a postfix node with operator `[`, whose index may be any expression. |
| ExprNodes.TernaryBuilds | src/parser.c:665-684 | `a ? b : c` builds a ternary node with these three parts in this order; `b` may be any expression. |
| ExprNodes.BinaryBuilds | src/parser.c:554-661 | `a op b` builds a binary node with these operands in this order, for every operator of the six levels. |
| ExprNodes.AssignBuilds | src/parser.c:691-719 | `a = t c`, for each of the eleven operators, builds an assignment node that holds the token `t` as operator, `a` and `c`. |
| ExprNodes.ConstantNode | src/parser.c:408-439 | An integer builds a constant of type `long`, a character one of type `char`, a floating constant one of type `double`, and a declared name the node of its symbol. |
| ExprNodes.GroupNode | src/parser.c:440-447 | Parentheses around an expression leave its node as it is. |
| ExprNodes.PrefixBeforeBinary | src/parser.c:522-592 | A prefix operator binds tighter than every binary one. |
| ExprNodes.StepBeforePrefix | src/parser.c:498-548 | A step after an operand binds tighter than a prefix operator. |
| ExprNodes.TernaryAfterBinary | src/parser.c:665-684 | Every binary operator but the comma binds tighter than `? :`, on both sides of it. |
| ExprNodes.TernaryGroupsRight | src/parser.c:665-684 | `a ? b : c ? d : e` is grouped to the right. |
| ExprNodes.CommaAfterTernary | src/parser.c:665-739 | A comma binds looser than `? :`, on both sides of it. |
| ExprNodes.CaretStops | src/parser.c:554-739 | In front of `^` every expression ends: it is read as it is read alone, and `^` is left. |
| ExprNodes.MemberIsUndefined | src/parser.c:485-497 | `a . b` and `a -> b` read a field of a node of another kind. |
| ExprNodes.OperandFails | src/parser.c:400-719 | A string literal is undefined, an undeclared name is fatal, an assignment operator at the end of the input is undefined. |
| StmtParsing.ParseStmt | src/parser.c:77-393 | A statement that is not the null pointer consumes at least one token, which is why the loop over a block ends; no result is a declaration. |
| StmtTheorems.StmtParserIsGrammar | src/parser.c:77-393 | On every token stream the statement parser answers a tree and leaves a rest if and only if the tree is legal, the stream is its print followed by the rest, and the next token does not continue it. |
| StmtTheorems.StmtRoundTrip | src/parser.c:77-393 | Printing a legal statement (blocks, declarations, if, else, loops, switch, labels of a switch, jumps) and parsing it gives it back and leaves what followed. |
| StmtTheorems.StmtSound | src/parser.c:77-393 | Every successful parse comes from a legal statement whose print is exactly the tokens consumed. |
| StmtTheorems.StmtUnambiguous | src/parser.c:77-393 | A token stream is read as at most one legal statement, ending at one place. |
| DanglingElse.CompleteRoundTrip | src/parser.c:77-393 | The round trip for statements with a body wherever C demands one: whatever follows is left alone, unless it is an `else` that an `if` on the right edge can still take. |
| DanglingElse.ElseBindsNearest | src/parser.c:151-164 | In the result of a successful parse no `else` is attached to an `if` whose then-branch ends in an `if` without one, through any nesting of loops and labels, if and only if no `else` with a statement comes right after one without. |
| DanglingElse.EmptyElseIsStepped | src/parser.c:157-163 | A statement with two `else` in a row, of which the program builds a node whose `else` skips the nearer `if`. |
| ElseTokens.ElsesApartBindNearest | src/parser.c:151-164 | If no two `else` come together among the tokens consumed, parentheses aside, every `else` is attached to the nearest `if` that can take it. |
| ElseExact.ElsesOnTokens | src/parser.c:151-164 | In a statement no `for` of which is followed by a sibling, every `else` is attached to the nearest `if` that can take it, if and only if among the tokens consumed no `else` with a statement comes right after an `else` without one, hollow parentheses between them aside. |
| ElseExact.OnlyEmptyElseEnds | src/parser.c:157-163 | A statement that an `else` may follow ends in an `else` and hollow parentheses only if its last `else` has nothing after it; an `else` taken for the operator of an assignment never ends one. |
| UndefinedParsing.UndefinedNeedsStray | src/parser.c:400-739 | An expression parse ends with undefined behaviour only if there is a `.`, a `->` or a string literal among the tokens, or the last token is an assignment operator. |
| UndefinedParsing.UndefinedStmtNeedsStray | src/parser.c:77-393 | The same for a statement parse. |
| StmtAst.SiblingReplacesBody | src/parser.c:109-116 | In a block, of `for (...) body sibling` the program builds what it builds of `for (...) sibling`: linking the sibling overwrites the body. |
| StmtConservation.StmtTokensConserved | src/parser.c:77-393 | Parentheses aside, the tokens of the node of a parsed statement are the tokens consumed, in order, with exactly as many struck out as there are assignment operators, empty `else` branches and tokens in overwritten `for` bodies; they are all of them if and only if that number is zero. |
| StmtNodes.ExprStmtBuilds | src/parser.c:382-390 | An expression and a semicolon build the expression's own node. |
| StmtNodes.IfBuilds | src/parser.c:131-164 | `if` without `else` builds a node with condition and branch, in front of any token but `else`. |
| StmtNodes.IfElseBuilds | src/parser.c:131-164 | With `else` it holds condition, branch and else branch in this order. |
| StmtNodes.LoopsBuild | src/parser.c:196-235 | `while` and `switch` each build a node of their own kind with guard and body. |
| StmtNodes.LabelsBuild | src/parser.c:166-193 | `case` builds a node with its expression and statement, `default` one with its statement. |
| StmtNodes.DoBuilds | src/parser.c:238-268 | `do` builds a node with the body and the guard that comes after it. |
| StmtNodes.ForBuilds | src/parser.c:272-312 | `for` builds a node with initialisation, condition and step in this order and the body in `next`. |
| StmtNodes.JumpsBuild | src/parser.c:315-377 | `break`, `continue`, `goto` and `return` build nodes of their own kinds, with the symbol or the expression. |
| StmtNodes.BlockBuilds | src/parser.c:81-125 | The first statement hangs on the block's node and the second in the `next` of the first. |
| StmtNodes.DeclarationBuilds | src/parser.c:20-64 | A keyword and a semicolon are read as a declaration, in a block and in a `for`, if and only if the keyword is one of the 17 specifiers; the node holds that keyword. |
| Parsers.Parser.LookUp | src/parser.c:409-412 | The symbol is the one that the scopes visible from the current one answer for the name. |
| Parsers.Parser.TakeOperator | src/parser.c:707-710 | The pending token after the assignment operator is taken, and both are consumed; none when the input ends there. |
| Parsers.Parser.ParsePrimaryExpr | src/parser.c:400-452 | The method returns the node of the tree the specification reads from the pending tokens and leaves the lexer at its rest, or fails as the specification does. |
| Parsers.Parser.ParsePostfixExpr | src/parser.c:463-510 | The same for one postfix operator after a primary. |
| Parsers.Parser.ParseUnaryExpr | src/parser.c:522-548 | The same for prefix operators. |
| Parsers.Parser.ParseBinaryExpr | src/parser.c:554-661 | The same for the five loops over left-associative operators, one for each layer. |
| Parsers.Parser.ParseCondExpr | src/parser.c:665-684 | The same for the conditional operator. |
| Parsers.Parser.ParseAssignExpr | src/parser.c:691-719 | The same for assignments: the operator is eaten and the token after it is stored. |
| Parsers.Parser.ParseExpr | src/parser.c:723-739 | The same for the loop over commas. |
| Parsers.Parser.ParseDeclaration | src/parser.c:20-64 | A declaration specifier and its semicolon give a declaration node; before anything else the method returns the null node and consumes nothing. |
| Parsers.Parser.ParseStatement | src/parser.c:77-393 | The method returns the node of the statement the specification reads from the pending tokens and leaves the lexer at its rest, or fails as the specification does; it ends on every token stream. |
| Parsers.Parser.ParseBlock | src/parser.c:81-125 | The same for a block, whose items are linked in the order they were parsed. |
| Parsers.Parser.ParseExpressionStatement | src/parser.c:382-390 | The same for expression statements; an expression without operands consumes no semicolon. |
| Parsers.Parser.ParseIfStatement | src/parser.c:131-164 | The same for `if` and `else`. |
| Parsers.Parser.ParseCaseStatement | src/parser.c:166-179 | The same for `case`. |
| Parsers.Parser.ParseDefaultStatement | src/parser.c:182-193 | The same for `default`. |
| Parsers.Parser.ParseSwitchStatement | src/parser.c:196-214 | The same for `switch`. |
| Parsers.Parser.ParseWhileStatement | src/parser.c:217-235 | The same for `while`. |
| Parsers.Parser.ParseDoStatement | src/parser.c:238-268 | The same for `do`. |
| Parsers.Parser.ParseForStatement | src/parser.c:272-312 | The same for `for`, whose body goes into the pointer that also chains the items of a block. |
| Parsers.Parser.ParseJumpStatement | src/parser.c:315-338 | The same for `break` and `continue`. |
| Parsers.Parser.ParseGotoStatement | src/parser.c:341-363 | The same for `goto`, whose label is looked up like any name. |
| Parsers.Parser.ParseReturnStatement | src/parser.c:366-377 | The same for `return`. |
| HashTable.ProbeTerminates | src/hashmap.c:97-112 | A probe ends if and only if some slot is empty or holds a match, and then at the first such slot around the table from the home of the key. |
| HashTable.ExactProbe | src/hashmap.c:77-85 | In a sound table the probe for a key ends at the slot that holds it, or at an empty slot if none does. |
| HashTable.PlaceKeeps | src/hashmap.c:77-89 | With a free slot an insertion finds its slot, keeps the table sound, leaves a present key alone, and otherwise adds the key to the map and one to the count. |
| HashTable.Grow | src/hashmap.c:38-58 | Growth doubles the capacity and keeps the map, drops every tombstone, and leaves the count at the number of live keys; -1 and no change exactly when the doubled capacity exceeds 8192. |
| HashTable.Insert | src/hashmap.c:68-92 | Insertion keeps the invariant and adds the key unless it is there, the first value winning; it returns the slot of the key, and -1 if and only if 8192 slots are in use. A full table doubles first, even for a key it holds; otherwise the capacity stays and a new key takes an empty slot, no other slot changing. |
| HashTable.Remove | src/hashmap.c:94-115 | Removal keeps the invariant, the count and the capacity, and takes the key out of the map. It returns the slot that held the key, which becomes a tombstone, or -1 with the table unchanged, if and only if the key was not there; it never returns if and only if the table is full and lacks the key. |
| HashRuns.RunRefinesMap | src/hashmap.c:30-115 | Over every run of insertions, removals and explicit growths, from any sound table and under any hash, the slots stand for the map the same run makes of the same map. |
| HashRuns.NoRefusal | src/hashmap.c:72-75 | In a run that cannot fill 8192 slots no insertion is refused, whatever is removed and however often the table is grown. |
| HashRuns.CreatedRunRefinesMap | src/hashmap.c:30-115 | Every run of insertions, removals and growths from a created table keeps it sound and equal to the map that the run makes of the empty map; up to 8192 insertions none is refused. |
| HashRuns.LookupExact | src/hashmap.c:117-135 | When no other live key extends the query, a lookup answers as the map does, and it fails to return if and only if the table is full and lacks the key. |
| HashRuns.LookupsRightIff | src/hashmap.c:117-135 | Lookups of a key are right under every hash and after every run leaving given contents, if and only if no live key properly extends the key. |
| HashRuns.FoundByPrefix | src/hashmap.c:121-135 | A lookup of the beginning of a live key that has the same hash as the key finds a live key that it begins. |
| HashRuns.GrowKeepsFirst | src/hashmap.c:38-58 | The key in the first slot is the first a growth re-inserts, and ends up in its home slot. |
| HashRuns.GrowInOrder | src/hashmap.c:38-58 | A growth re-inserts in the order of the slots: each live key goes into the first slot, from its new home on, that no key of an earlier slot has taken. |
| HashRuns.SlotsStable | src/hashmap.c:68-115 | Between growths a live key stays in its slot over any run that does not remove it. |
| HashMaps.HashMap.constructor | src/hashmap.c:30-36 | A created object is the created table: 32 empty slots, none in use. |
| HashMaps.HashMap.Insert | src/hashmap.c:68-92 | The object becomes what the insertion function makes of it and the index returned is the same; its capacity doubles exactly when it was full. The mutual recursion with growth ends because a table that has just grown is never full. |
| HashMaps.HashMap.Grow | src/hashmap.c:38-58 | The object becomes what the growth function makes of it, by re-inserting the live slots one after the other. |
| HashMaps.HashMap.Find | src/hashmap.c:124-131 | The probe loop, shared by insertion, removal and lookup, ends at the slot the specification names. |
| HashMaps.HashMap.Remove | src/hashmap.c:94-115 | The object becomes what the removal function makes of it: the slot that held the key, whose index is returned, becomes a tombstone, or nothing changes and -1 is returned. |
| HashMaps.HashMap.NRetrieve | src/hashmap.c:121-135 | The entry returned is the first on the probe chain of the cut key that starts with it. |
| HashMaps.HashMap.Retrieve | src/hashmap.c:117-119 | The same for a whole key; it is the value in the map when no other key extends the query. |
| HashMaps.EnumerationComplete | src/hashmap.c:137-150 | The list of live slots holds every entry of the map and nothing else, each key once. |
| HashMaps.LaterListedFirst | src/hashmap.c:137-150 | Of two live slots the later one comes first in the list. |
| HashMaps.HashMap.Enumerate | src/hashmap.c:137-150 | The method returns the live slots, last slot first. |
| Spelling.MaximalMunch | src/lexer.c:92-250 | An answer is the operator read at a position if and only if it is the longest entry of the operator table that the text matches there; no operator is read if and only if no entry matches. |
| Spelling.KeywordsPrefixFree | src/keyword.c:3-40 | `do` and `double` are the only two keywords of which one starts the other. |
| Keywords.ClassifyExact | src/lexer.c:462-470 | Under every hash, a word that no keyword properly extends is taken for a keyword if and only if it is that keyword. |
| Keywords.PlainIff | src/lexer.c:454-472 | A token is read back from its spelling under every hash, with the keyword table that the lexer builds under that hash, if and only if it is an operator, an integer up to 2^63-1, a keyword other than `do`, or an identifier that starts no keyword. |
| Keywords.DoReadAsDouble | src/lexer.c:462-470 | There is a hash under which the lexer's own keyword table reads `do` as `double`: growing the table re-inserts `double` first, into the slot where both start. |
| Keywords.StartTaken | src/lexer.c:462-470 | The beginning of a keyword that has the same hash as the keyword is taken for a keyword. |
| LexTheorems.DecimalValue | src/lexer.c:413-435 | The canonical decimal form of a number has that number as its value, and starts with `0` only for zero, so it is never read as octal. |
| NumberTheorems.IntegerRead | src/lexer.c:413-435 | A number of any size, in decimal, after `0` in octal, or after `0x` or `0X` in hexadecimal digits of either case, leading zeros allowed, in front of a character that does not go on with it, is read over its whole spelling as its value, up to 2^63-1; only in front of `.`, `p` or `P`, and unless it is zero, it is a floating constant. |
| NumberTheorems.IntegerRoundTrip | src/lexer.c:413-435 | Every number up to 2^63-1, printed in base 8, 10 or 16 with its prefix and letters in any mix of cases, is read back as that number. |
| NumberTheorems.NewlinesCounted | src/lexer.c:25-42 | The line grows by one for each carriage return and each line feed. |
| NumberTheorems.BlanksSkipped | src/lexer.c:25-42 | The blanks skipped are spaces, tabs, carriage returns and line feeds, up to the first other character. |
| NumberTheorems.WordSpan | src/lexer.c:252-263 | A word goes on over letters, digits and underscores, up to the first other character. |
| NumberTheorems.FirstCharacter | src/lexer.c:437-480 | A digit starts a number, a letter or an underscore a word, `#` a directive, a point and a digit a floating constant; nothing else starts a number or a word. |
| LexTheorems.ReadToken | src/lexer.c:437-480 | A readable token spelled at a position and followed by a blank or the end is read as that token, over exactly its spelling. |
| LexTheorems.LexRoundTrip | src/lexer.c:437-480 | Operators, integers up to 2^63-1, keywords and identifiers that the given keyword table classifies rightly, written with any blanks between them, are read back in order and followed by the end of file. |
| LexTiling.LexTiles | src/lexer.c:437-480 | Lexing cuts a text into ordered, disjoint slices with only blanks between them; each token is the longest its slice allows and is on the line that the carriage returns and line feeds before it say; the last is the end of file, where no token starts. |
| Lexers.Source.HandleIgnore | src/lexer.c:25-42 | The cursor moves past all blanks and the line grows by the line breaks among them. |
| Lexers.Source.OpSeparator | src/lexer.c:92-250 | The token is the longest entry of the operator table that the text matches at the cursor, which moves past it; without one the cursor stays. |
| Lexers.Source.Word | src/lexer.c:252-263 | The cursor moves to the end of the word and the token is the word. |
| Lexers.Source.NumConst | src/lexer.c:413-435 | The cursor moves past the integer, read in base 8, 10 or 16 and clamped to the range of `long`. |
| Lexers.Lexer.LexInternal | src/lexer.c:437-480 | The token returned is the next of the top source, whose cursor moves past it; words are looked up in the keyword table. |
| Lexers.Lexer.NextFromSources | src/lexer.c:530-540 | A source whose end of file has been read is dropped. |
| Lexers.KeywordTable | src/lexer.c:487-493 | The table is the one that inserting the keywords in the program's order makes of an empty one; it holds every keyword under its own text and nothing else, and has a free slot, under every hash. |
| Lexers.Lexer.constructor | src/lexer.c:483-499 | A created lexer has the program's keyword table for its hash, no source and no cached token. |
| Lexers.Lexer.Register | src/lexer.c:516-520 | All the tokens of the new source come before those of the others. |
| Lexers.Lexer.Get | src/lexer.c:522-543 | The object makes the get step of the token queue and delivers the next pending token. |
| Lexers.Lexer.Peek | src/lexer.c:545-551 | The object makes the peek step of the token queue and shows the next pending token. |
| Lexers.Lexer.Eat | src/lexer.c:553-556 | The object makes the get step of the token queue; one pending token is consumed, or the last end of file if nothing else is left. |
| Lexers.Lexer.Advance | src/lexer.c:558-566 | The object makes the get step and answers the kind of the token, and none, for the program's -1, if and only if no source is left. |
| TokenQueue.GetDelivers | src/lexer.c:522-543 | A get delivers the first pending token and leaves the others pending. |
| TokenQueue.PeekKeeps | src/lexer.c:545-551 | A peek shows the first pending token and leaves all of them pending; a second peek shows the same and changes nothing. |
| TokenQueue.PeeksAreTransparent | src/lexer.c:522-551 | Over any interleaving of gets and peeks on a stack of sources, the gets deliver the pending tokens in order, up to but excluding the last end of file. |
| TokenQueue.PeeksDoNotMatter | src/lexer.c:522-551 | Two interleavings with equally many gets, up to that point, deliver the same. |
| TokenQueue.LastEofIsLost | src/lexer.c:522-551 | When only the last end of file is left a get delivers it if and only if its source is still there; after a peek at it, a get delivers nothing. |
| EndToEnd.TextRoundTrip | src/parser.c:755-757 | Writing a legal statement to characters in any layout, with words that the given keyword table classifies rightly, lexing them and parsing the tokens gives the statement back. |
| EndToEnd.PlainSpaced | src/lexer.c:454-472 | Tokens that are plain, spaced with any blanks, can be written so under every hash. |
| EndToEnd.ParseText | src/parser.c:755-757 | Lexer, source, symbol table and parser objects together return the node that the specifications read from the text with the keyword table the lexer builds. |
| EndToEnd.ParseWrittenStatement | src/parser.c:755-757 | On a legal statement written down in any layout, whose words the lexer's keyword table classifies rightly and whose names the symbol table answers for, lexer, cache, symbol table and parser together build the node of that statement. |
| ScopeStack.LookupIsInnermost | src/symbol.c:127-135 | Lookup answers with the innermost binding on the chain of enclosing scopes, for a name that no visible name properly extends, in tables with a free slot. |
| ScopeStack.RunRefinesMaps | src/symbol.c:85-124 | Over every run of enters, leaves, installs and removes, the visible tables stand for the stack of finite maps that the same run makes of the same stack of maps. |
| ScopeStack.CreatedRunLooksUp | src/symbol.c:60-135 | Over every run from a new symbol table, lookups answer with the innermost binding of the stack of maps the run makes, under the same condition. |
| ScopeStack.RunKeepsOuter | src/symbol.c:85-124 | Whatever is entered, left, installed and removed inside scopes of its own, a run leaves every scope further out with its very table. |
| ScopeStack.BalancedRunKeepsLookups | src/symbol.c:85-135 | After a balanced run of enters and leaves every lookup from the outer scope answers what it answered before. |
| ScopeStack.RunKeepsNames | src/symbol.c:102-114 | Over every run of installs under the symbol's own name, every symbol stays bound to its own name. |
| ScopeStack.ScopesAnswerExactly | src/symbol.c:102-135 | After every run from a new symbol table with such installs, each declared name of a text is answered with a symbol of that very name, when no visible name properly extends it and no visible table is full; this is what token conservation asks of the symbol table. |
| SymbolTables.Scope.constructor | src/symbol.c:7-14 | A new scope has the given enclosing scope and no subscopes. |
| SymbolTables.Symtab.constructor | src/symbol.c:60-74 | A new table has one scope, global and current. |
| SymbolTables.Symtab.Enter | src/symbol.c:85-94 | A new scope becomes current and comes first among the subscopes of the one it was entered from; the scopes stay a tree in which each is in the list of its enclosing scope alone, once; the visible stack makes the enter step. |
| SymbolTables.Symtab.Leave | src/symbol.c:96-100 | The enclosing scope becomes current; the visible stack makes the leave step and the tree stays. |
| SymbolTables.Symtab.Install | src/symbol.c:102-114 | The current table takes the symbol under its name, no other table changes, and the index is that of the insertion. |
| SymbolTables.Symtab.Remove | src/symbol.c:116-124 | The current table loses the name, the slot that held it, whose index is returned, becoming a tombstone; no other table changes. |
| SymbolTables.Symtab.LookupFrom | src/symbol.c:127-135 | The answer is that of the stack visible from the given scope; the recursion outward ends. |
| SymbolTables.UnderSubscope | src/symbol.c:17-26 | What lies strictly below a scope is what lies at or below one of its subscopes. |
| SymbolTables.FreedOnce | src/symbol.c:17-32 | Destroying a scope frees each scope at or below it exactly once, and no other. |
| SymbolTables.EveryScopeOnce | src/symbol.c:17-32 | Destroying the root frees every scope of the table exactly once. |
| SymbolTables.FreedChildrenFirst | src/symbol.c:22-30 | Every scope is freed before the scopes that enclose it. |
| SymbolTables.FreedInOrder | src/symbol.c:22-26 | Of two subscopes of one scope, everything under the earlier one in the list is freed before everything under the later one. |
| SymbolTables.Symtab.DestroyScope | src/symbol.c:17-32 | The method frees the subscopes first to last, then the scope, as the specification lists them. |
| SymbolTables.Symtab.Destroy | src/symbol.c:76-83 | All scopes are freed, each once, none before a scope it encloses, and subscopes in the order of their lists. |

## Left out

- Syntax nodes are values. The items of a block are collected and linked when the block closes, while
  the program links each item as it comes; that linking overwrites the body of a `for` is kept, that
  nodes may be shared is not.
- Member access with `.` and `->`, string literals in expressions, and an assignment operator with
  nothing after it end the model with `Undefined`: the program goes on with a node it has not
  initialised or reads it as a node of another kind (`src/parser.c:406`, `src/parser.c:493`,
  `src/parser.c:710`).
- Parsers.Parser.ParseStatement: asks for a lexer whose last end of file has not been consumed, as the
  other parser methods do; past it the program follows a null pointer or an uninitialised node. It also
  asks that the lookups of the names in the text return (`HashTable.ProbeTerminates` says when).
- The five functions for binary operators are one method with the layer as parameter.
- `INIT_ALLOC` initialisers are taken in textual order, which section 6.7.8 paragraph 23 of
  ISO/IEC 9899:1999 leaves open.
- Lexers.Lexer.Register: asks for a source without `#` directives or floating constants ahead
  (`Supported`), and so does LexTiling.LexTiles; directives are a stub that does not advance, and
  floating constants depend on `strtod`.
- Comments (the test for them at `src/lexer.c:78` always breaks out, so they are read as operators),
  character and string constants, wide characters: never lexed by the program.
- `strtol` is a function on the text with its clamping; the C locale is assumed for `isalpha` and
  `isdigit`.
- The FNV hash function, which is replaced by an arbitrary one, and with it the width of `hash_t`.
- The text and line of diagnostics: every `logger_fatal` is the same failing result, also where the
  token its line number is read from has been freed or, at the end of the input, is null
  (`src/parser.c:249`, `src/parser.c:479`, `src/parser.c:673`).
- Integer widths elsewhere: a capacity never exceeds 8192; lines and lengths are unbounded.
- HashMaps.HashMap.Remove: excludes a removal that goes around a full table forever, by a precondition
  equivalent to its ending (`HashTable.Remove` says exactly when).
- HashMaps.HashMap.NRetrieve: excludes a lookup that never ends, as do HashMaps.HashMap.Retrieve and
  SymbolTables.Symtab.LookupFrom (`HashTable.ProbeTerminates` says exactly when).
- Null arguments to the public functions, which return at once.
- SymbolTables.Symtab.Leave: asks for a current scope other than the global one; leaving that one
  leaves the program without a current scope.
- The `typeref` tables, the `tag` scope, the predefined types, and the `scope` field of a symbol.
- `symbol_create`, which has no return statement; symbols are given.
- SymbolTables.Symtab.DestroyScope: gives the scopes freed as a list; the popping of list cells, the
  freeing of the tables and all other memory management are not modelled.
- Labels, function calls, casts and `sizeof`, which the parser does not implement. `goto` looks its
  label up among the symbols, as the code does.
- Reading files, the logger, `ast_dump`, `main`, `unit`, types and the list module.
