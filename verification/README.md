# A verified model of lilc

lilc compiles a small language of floating-point functions to LLVM IR. This project models its three
parts and the libraries under them, and proves what they promise.

**Code generator** (`Ast`, `Semantics`, `Ir`, `CodegenSpec`, `CodegenShape`, `CodegenCorrect`,
`CodegenScope`, `Verifier`, `CodegenTyped`, `CodegenWellFormed`, `SymbolTable`, `Codegen`). `CodegenSpec.Gen` is the walk of
src/codegen.c as a function of the blocks of one function and the block the builder stands in; the methods
of `Codegen` do the walk step by step, on a `Builder` object and a hash table of names, and are proved to
compute it. `Ir` has a small-step machine for the emitted subset of LLVM IR (with the predecessor block,
for phi); `Semantics` evaluates the syntax tree with fuel. Doubles are an abstract type, and arithmetic,
`<` (ULT) and the test for non-zero (ONE) are arbitrary functions. The main results: a compiled function
returns a value exactly when its source evaluates to it, so divergence is preserved too; a module comes out
exactly when the program is well scoped; and every function emitted passes the rules of the LLVM verifier:
one terminator at the end of each block, phis that name exactly the predecessors, definitions that dominate
their uses on every path, operands of the right types, known callees with the right number of arguments.

**Lexer and parser** (`Lexicon`, `LexSpec`, `Lexer`, `LexRoundTrip`, `ParseSpec`, `Parser`, `Grammar`,
`ParseComplete`, `ParseSound`, `ParserCorrect`, `Unparse`, `Decimals`, `SourceText`, `Vector`). `Lexer` and
`Parser` are classes whose methods advance an offset through the text; they are proved to compute the
functions of `LexSpec` and `ParseSpec`. `Lexicon` and `Grammar` state the language independently of these:
the spellings of the tokens character by character, and derivation trees in the layers of the comment in
src/parse.c, operator by operator and without binding powers, left-associative in each. The Pratt loop returns a tree without an error exactly when the grammar
derives it, and stops exactly there. The derivations also have error forms: `Loose` describes, on the tokens,
all that the parser accepts, and is proved to be exactly that. Printing with the fewest parentheses and
parsing are inverse, down to the text. `Pipeline` joins this with the compiler theorem.

**Hash table** (`TableModel`, `TableRefinement`, `TableRuns`, `TableNulKeys`, `TableCost`, `HashTable`,
`TableIteration`, `TableMerge`, `Bits`). `HashTable.HashTable` has chains of heap objects that are relinked
in place; each method is proved to compute an operation of `TableModel`, down to the order in the chains.
The operations refine those of a finite map through every resize; when a resize is due, and to how many
buckets, is stated in numbers; resizing costs at most 16 units for each
put or delete, iteration is exact, and merging is right-biased union.

**The rest**: the tree printer of src/ast.c (`AstShow`, `AstPrinter`), with a reader of the printed form that
gives every tree back (`AstReader`), and bencoding with its decoder (`CfuString`, `Bencode`).

## What the proofs found

- The parser accepts sources that are not programs, because a NULL result is let through in many places
  (src/parse.c:66-106, 176-198, 256-282): as a condition, as either block of an `if`, as the body of a
  function, in parentheses, and as a left operand. `expression` returns NULL after one token that starts no
  operand, and the loop goes on after a failed right operand, argument or parameter list. So `if ()) { };` is a
  whole source to the parser, and so is `(;) + 1;`. `ParserCorrect.AcceptedExactly` and `RejectedExactly` say
  for which tokens this happens: those with a derivation, perhaps with error forms. The error flag is raised
  exactly if one occurs (`ParserCorrect.ErrorFlagDecides`). `NullCondition`, `NullThenBlock`, `NullBody` and
  `NullOperand` show the places. `parser_init` does not clear the flag; the model starts with it clear.
- `if_prefix` calls `block` twice for an `else` and tests only the second result (src/parse.c:83-87). So an
  `else` is lost whenever one of its statements cannot be parsed and the rest of its block can
  (`ParserCorrect.ElseErrorGoesUnnoticed`); it fails exactly when the second result is NULL
  (`ElseFailsExactly`).
- With CFUHASH_IGNORE_CASE, keys are compared by `strncasecmp`, which stops at a NUL, but hashed whole. The
  table is a map exactly for keys without an inner NUL (`TableModel.KeyEqualExact`); any other key can be
  lost (`TableNulKeys.NulKeyLost`), and with the default hash function and size a NUL and `a` is
  (`TableNulKeys.NulKeyLostByDefault`).
- Identifiers end after 63 characters, not the 64 of the comment (src/lex.c:34-48): a run of identifier
  characters is one token exactly when it has fewer than 64 (`LexRoundTrip.WordScannedWhole`); 64 letters
  are two names (`LexRoundTrip.SixtyFourLetters`).
- The grammar in the repository's own README and in the comments of src/parse.c asks for commas and
  non-empty blocks. The code lets commas be left out and blocks be empty, and takes definitions and `if`s as
  operands; the model follows the code. After a stray `}` at the top level the rest of a source is ignored.
- `cfustring_append` asks for one place more than it needs, so it grows early.

## Model

| member | source | states |
|---|---|---|
| `CodegenCorrect.CompilerCorrect` | src/codegen.c:161-420 | a compiled function returns a double if and only if evaluating the syntax tree gives it, for all arguments and all float operations |
| `CodegenCorrect.CompiledNeverStuck` | src/codegen.c:266-301 | however many steps a compiled function runs, it never gets stuck: no missing operand, block, phi entry or callee |
| `CodegenCorrect.SimExpr` | src/codegen.c:389-420 | code for an expression, run from where the builder stood, ends where the builder ended, with the expression's value |
| `CodegenCorrect.SimBinExpr` | src/codegen.c:189-223 | the same for an operator, whose operands may have moved the builder |
| `CodegenCorrect.SimCallExpr` | src/codegen.c:303-328 | the same for a call, which runs the callee on the evaluated arguments |
| `CodegenCorrect.SimIfExpr` | src/codegen.c:330-387 | the same for an `if`: the phi takes the value of the arm that ran, by the block that arm ended in |
| `CodegenCorrect.SimSeq` | src/codegen.c:176-187 | the same for the statements of a block and the arguments of a call, in order |
| `CodegenCorrect.SimInvoke` | src/codegen.c:266-301 | from a call of a compiled function, in any stack, the machine reaches what evaluating the body gives within some steps |
| `CodegenCorrect.GenProgramImplements` | src/codegen.c:225-301 | each function of the module has the code of the definition of its name, and finds the functions it was compiled against |
| `CodegenShape.GenExtends` | src/codegen.c:330-387 | generating code changes no block but the one the builder was in and new ones, and leaves the builder in one of these |
| `CodegenShape.GenValueIn` | src/codegen.c:189-328 | where the symbol table holds parameters, the value of an expression is a constant, one of these, or an instruction already emitted |
| `CodegenScope.GenSucceeds` | src/codegen.c:166-328 | code comes out for an expression if and only if its variables are parameters and its calls have known callees and the right number of arguments |
| `CodegenScope.GenProgramSucceeds` | src/codegen.c:225-328 | code comes out for a program if and only if it is well scoped: no redefinition, calls to itself or earlier functions only, no parameter of another function |
| `CodegenTyped.GenTyped` | src/codegen.c:161-420 | the value of an expression is a double, and all emitted instructions have operands of the types they take: i1 for a branch and a conversion, doubles elsewhere, known callees with the right count |
| `CodegenTyped.GenBodyTyped` | src/codegen.c:282-290 | a finished body is well typed, its return included |
| `CodegenWellFormed.GenWellFormed` | src/codegen.c:389-420 | generating code keeps the invariant on blocks, edges and definitions, at any nesting of `if`; operands are constants, parameters below the function's arity, or reached instructions |
| `CodegenWellFormed.GenIfWellFormed` | src/codegen.c:330-387 | an `if` terminates the blocks its arms ended in, and its phi names exactly these |
| `CodegenWellFormed.OnEveryPath` | src/codegen.c:353-379 | the dominators the invariant tracks are on every path from the entry block |
| `CodegenWellFormed.GenBodyVerified` | src/codegen.c:292-300 | a finished body passes the LLVM verifier's rules: terminators, exact phis, dominance, types and call signatures |
| `CodegenWellFormed.GenProgramVerified` | src/codegen.c:266-301 | so does every function, in the module as it is in the end |
| `CodegenWellFormed.AllVerified` | src/codegen.c:266-301 | a generated module consists of verified functions |
| `Codegen.Builder.Emit` | src/codegen.c:204-219 | appends an instruction to the current block and changes nothing else |
| `Codegen.Builder.AppendBasicBlock` | src/codegen.c:344-346 | adds an empty block at the end of the function |
| `Codegen.Builder.EnterFunction` | src/codegen.c:277-280 | adds the entry block and moves the builder into it |
| `Codegen.Builder.PositionAtEnd` | src/codegen.c:353-376 | moves the builder to a block and changes no code |
| `Codegen.GetNamedFunction` | src/codegen.c:307-311 | finds the function of a name, or that there is none |
| `Codegen.DoCodegen` | src/codegen.c:389-420 | computes `Gen` for any node, and leaves the symbol table as it was |
| `Codegen.CodegenVar` | src/codegen.c:166-170 | a variable is looked up in the symbol table |
| `Codegen.CodegenBinop` | src/codegen.c:189-223 | both operands are generated, also when the first fails; then the instruction, or the comparison and its conversion |
| `Codegen.CodegenBlock` | src/codegen.c:176-187 | the statements in order; the last value, or NULL from the first failure on |
| `Codegen.CodegenFunccall` | src/codegen.c:303-328 | fails on an unknown callee or a wrong count before any argument is generated |
| `Codegen.CodegenArgs` | src/codegen.c:317-325 | the arguments in order, up to the first failure |
| `Codegen.CodegenIf` | src/codegen.c:330-387 | computes `Gen` of the `if`, reading the insertion block again after each arm |
| `Codegen.OpenArms` | src/codegen.c:336-353 | the test, three new blocks at the end of the function, and the branch |
| `Codegen.CloseArm` | src/codegen.c:357-373 | ends an arm with its branch and tells the block it ended in |
| `Codegen.Declare` | src/codegen.c:228-252 | a new function, or NULL and no change for a name that has a body or another number of parameters |
| `Codegen.CodegenProto` | src/codegen.c:225-264 | declares the function and stores its parameters; of equal names the later one stays |
| `Codegen.CodegenFuncdef` | src/codegen.c:266-301 | computes `GenFunc`: the module with the function added; or NULL, and the module as it was, if it had no function without a body |
| `Codegen.CodegenBody` | src/codegen.c:277-300 | the entry block, the body and the return; the declared function is gone again when the body fails |
| `Codegen.CodegenProgram` | src/codegen.c:176-187 | computes `GenProgram`; a module if and only if the program is well scoped; every function verified |
| `SymbolTable.Lookup` | src/codegen.c:166-170 | looking a name up gives its value, or nothing for a name not stored |
| `SymbolTable.Define` | src/codegen.c:255-261 | storing a parameter changes that name only, through any resize |
| `SymbolTable.Cleared` | src/codegen.c:269 | after clearing no name is left, so no parameter leaks into the next function |
| `Lexer.Lexer.constructor` | src/lex.c:10-17 | starts at offset 0 on line 1 |
| `Lexer.Lexer.ConsumeId` | src/lex.c:34-60 | the longest run of identifier characters, at most 63; keywords told from names; the line number stays right |
| `Lexer.Lexer.ConsumeNumber` | src/lex.c:62-74 | all digits, with the number they denote; the line number stays right |
| `Lexer.Lexer.Scan` | src/lex.c:76-115 | the next token and offset are those of `ScanAt`; lineno is 1 plus the newlines before the offset; a character that starts no token ends the program |
| `LexRoundTrip.LexingInvertsRendering` | src/lex.c:29-106 | any spelling of a token list, with any separating white space, scans to that list |
| `LexRoundTrip.WordScanned` | src/lex.c:34-60 | a run of at most 63 letters, digits and underscores that starts with a letter, and that no such character follows, is scanned as the keyword "def", "if" or "else" or as a name, which is itself |
| `LexRoundTrip.BlankSkipped` | src/lex.c:81-86 | spaces, tabs and newlines are skipped |
| `LexRoundTrip.OtherRejected` | src/lex.c:99-103 | a character that starts no token ends the program |
| `LexRoundTrip.NewlinesCounted` | src/lex.c:84 | the lines are counted by the newline characters |
| `Lexicon.NumeralExact` | src/lex.c:64-74 | the digit strings scanned as a number are exactly its decimal form after any zeros |
| `LexRoundTrip.WordScannedWhole` | src/lex.c:34-60 | a run of identifier characters is scanned as one token if and only if it has fewer than 64 |
| `LexRoundTrip.LongWordCut` | src/lex.c:43-50 | a longer run is cut after 63 characters |
| `LexRoundTrip.SixtyFourLetters` | src/lex.c:34-48 | 64 letters, which the comment allows, are scanned as two names |
| `ParseSpec.Expression` | src/parse.c:253-282 | a successful `expression` strictly consumes tokens; at the end of the source it gives NULL |
| `ParseSpec.BlockBody` | src/parse.c:296-313 | `block` succeeds only at the end of the source or at a closing brace |
| `ParserCorrect.PrattIsLayered` | src/parse.c:151-282 | `expression(rbp)` returns a tree without an error and stops at a place if and only if the grammar of the comment at lines 138-150 derives it in that layer, left-associatively, and the next token is no operator of the layer |
| `Grammar.LayersOfPowers` | src/parse.c:138-242 | the layers of the comment are those of the binding powers in the table: `<`, then `+` and `-`, then `*` and `/`; up to 16 arguments and 15 parameters |
| `ParserCorrect.Unambiguous` | src/parse.c:205-282 | the tokens fix the tree and where it ends |
| `ParserCorrect.ProgramIsSentence` | src/parse.c:296-334 | a source is accepted without an error if and only if it is a sentence of the grammar |
| `ParserCorrect.AcceptedExactly` | src/parse.c:256-334 | a source is accepted with a tree, a rest and an error flag if and only if its tokens are read as statements, perhaps with error forms, with that tree; the flag is raised exactly if there are some |
| `ParserCorrect.RejectedExactly` | src/parse.c:256-334 | the parser dies or crashes on exactly the sources that can be read in no way |
| `ParserCorrect.LanguageIsCleanLoose` | src/parse.c:205-313 | the language is what is read without error forms |
| `ParserCorrect.ErrorFlagDecides` | src/parse.c:13-17 | an accepted source, however it is read, is a sentence, with that tree and rest, if and only if no error form occurs |
| `ParserCorrect.ElseErrorGoesUnnoticed` | src/parse.c:80-90 | an `else` block with a statement that cannot be parsed is dropped, and the source accepted, when the rest of the block can be parsed |
| `ParserCorrect.ElseFailsExactly` | src/parse.c:80-90 | an `else` part gives NULL if and only if what the second call of `block` reads is cut |
| `ParserCorrect.NullCondition` | src/parse.c:66-75 | a condition that cannot be parsed is accepted as NULL |
| `ParserCorrect.NullThenBlock` | src/parse.c:71-75 | so is the first block of an `if` |
| `ParserCorrect.NullBody` | src/parse.c:194-199 | so is the body of a function |
| `ParserCorrect.NullOperand` | src/parse.c:98-108 | so is, in parentheses, the left operand of an operator |
| `ParseComplete.Whole` | src/parse.c:253-282 | every derivation, with or without error forms, is read to its own tree and no further, and raises the error flag exactly if it has some |
| `ParseComplete.ArgsWhole` | src/parse.c:117-136 | so are up to 16 arguments, with or without commas, and a NULL one after them |
| `ParseComplete.ParamsWhole` | src/parse.c:173-189 | so are parameters |
| `ParseComplete.DefBreak` | src/parse.c:176-189 | a definition is given up where its parameters do not go on, or at sixteen |
| `ParseComplete.ElseWhole` | src/parse.c:80-90 | after a block that was read, the second call of `block` consumes nothing and the first block is the result; after one that failed, the second call reads on |
| `ParseSound.ExpressionSound` | src/parse.c:253-282 | what is read is a derivation, with the result as its tree, and with error forms exactly if the flag was raised |
| `ParseSound.StmtsSound` | src/parse.c:296-313 | so is a block |
| `Parser.Parser.Scan` | src/lex.c:108-115 | the next token, and at the end of the source the same one again |
| `Parser.Parser.Consume` | src/lex.c:124-135 | moves on only past the token asked for |
| `Parser.Parser.Expect` | src/lex.c:137-154 | moves past the token asked for, or ends the program |
| `Parser.Parser.Expression` | src/parse.c:253-282 | the loop computes `ParseSpec.Expression` and terminates |
| `Parser.Parser.Prefix` | src/parse.c:205-251 | the prefix handler of each token class |
| `Parser.Parser.BinOpInfix` | src/parse.c:151-160 | the right operand at the operator's own binding power; NULL when it cannot be parsed |
| `Parser.Parser.LParenPrefix` | src/parse.c:95-108 | a parenthesized expression |
| `Parser.Parser.LParenInfix` | src/parse.c:117-136 | the arguments in a buffer of 16; a seventeenth, or a callee that is no variable, is undefined behaviour |
| `Parser.Parser.IfPrefix` | src/parse.c:62-93 | condition, block and optional `else` |
| `Parser.Parser.ElseBlock` | src/parse.c:80-90 | both calls of `block`, and which of the results is tested and which kept |
| `Parser.Parser.FuncDefPrefix` | src/parse.c:166-200 | name, parameters and body; exactly 16 parameters is an error |
| `Parser.Parser.ParamList` | src/parse.c:173-185 | the names in a buffer of 16 |
| `Parser.Parser.FuncDefBody` | src/parse.c:191-199 | the body between its braces |
| `Parser.Parser.ExprStmt` | src/parse.c:285-293 | an expression and a semicolon, which is expected also after a failure |
| `Parser.Parser.Block` | src/parse.c:296-313 | the statements, collected in the growing vector |
| `Parser.Parser.Parse` | src/parse.c:318-334 | the result for a text is that of `Program` on its tokens; a NULL root ends the program |
| `Unparse.ParsingInvertsPrinting` | src/parse.c:151-313 | for every tree the parser can build, printing and then parsing gives it back, with all tokens consumed |
| `Unparse.PrintLayered` | src/parse.c:205-251 | what is printed is a derivation of the tree |
| `Unparse.FewestParens` | src/parse.c:205-251 | no derivation of the same tree has fewer parentheses than the one printed |
| `SourceText.ParsingText` | src/parse.c:318-334 | any text that spells a program's tokens is parsed to the program's tree |
| `SourceText.SourceRoundTrip` | src/parse.c:318-334 | every tree with valid names has a text, and lexing and parsing it gives the tree back |
| `Pipeline.TextToMeaning` | src/codegen.c:266-301 | the text of a well-scoped program is parsed, compiled, and its functions mean what the program says |
| `Vector.Vector.Push` | lib/kvec.h:72-78 | appends one element; only a full vector moves, to 2 places or twice as many |
| `Bits.Roundup32` | lib/kvec.h:54 | for 1 to 2^31, the same number as the loop of `hash_size` |
| `Bits.RoundupIsHashSize` | lib/kvec.h:54 | smearing the bits of x - 1 and adding one gives the least power of two not below x |
| `Bits.MaskIsRemainder` | lib/cfuhash.c:144-149 | masking with a power of two less one is the remainder |
| `Bits.BucketIsMasked` | lib/cfuhash.c:144-149 | the bucket of a key is its hash word masked with the bucket count less one |
| `TableModel.HashSizeIsLeast` | lib/cfuhash.c:106-112 | `hash_size` gives the least power of two that is not smaller, and less than twice the number |
| `TableModel.KeyEqualExact` | lib/cfuhash.c:322-330 | a key is found equal to exactly the keys that are the same byte by byte, or but for the case of the letters A to Z where case is ignored, and so agrees with hashing, if and only if case matters or the key has no inner NUL |
| `TableModel.CanonExact` | lib/cfuhash.c:121-149 | the hashed forms of two keys are equal exactly if they are the same key in that sense |
| `TableNulKeys.NulKeyLost` | lib/cfuhash.c:322-330 | under some hash function, any case-insensitive key with an inner NUL is stored in a default table and then missed by a key that compares equal |
| `TableNulKeys.NulKeyLostByDefault` | lib/cfuhash.c:89-105 | under the default hash function, a NUL and `a` is stored and missed by a NUL and `b`, which compares equal |
| `TableRefinement.GetRefines` | lib/cfuhash.c:357-388 | looking up answers as the map does |
| `TableRefinement.PutRefines` | lib/cfuhash.c:424-468 | storing updates the map at one key, through any resize, and keeps the invariant |
| `TableRefinement.DeleteRefines` | lib/cfuhash.c:514-553 | deleting removes one key, through any resize, and keeps the invariant |
| `TableRefinement.ClearRefines` | lib/cfuhash.c:484-512 | clearing leaves the empty map |
| `TableRefinement.RehashRefines` | lib/cfuhash.c:812-843 | resizing keeps the map and the invariant |
| `TableRefinement.NewRefines` | lib/cfuhash.c:152-175 | a new table denotes the empty map |
| `TableRuns.PutSeen` | lib/cfuhash.c:357-468 | what is stored under a key is found under every key that is the same, but for case where it is ignored, and no other key sees it |
| `TableRuns.DeleteSeen` | lib/cfuhash.c:357-553 | what is deleted is found under no such key, and no other key misses anything |
| `TableRuns.StepRefines` | lib/cfuhash.c:357-553 | one request: the answer and the next state are the map's |
| `TableRuns.TableIsMap` | lib/cfuhash.c:357-553 | all answers to any sequence of get, exists, put, delete, clear and rehash are those of a finite map |
| `TableCost.RehashEntries` | lib/cfuhash.c:825-834 | resizing keeps the number of entries |
| `TableCost.LoadAfterRehash` | lib/cfuhash.c:818-822 | any resize of a non-empty table leaves a load in (1/4, 1/2] |
| `TableCost.NewBuckets` | lib/cfuhash.c:152-175 | a new table has no entries and the least power of two of buckets that is not below the size asked for |
| `TableCost.RehashResizes` | lib/cfuhash.c:812-843 | a resize is to the least power of two not below twice the entries, and counted, in 32 bits, if it changes anything |
| `TableCost.PutBuckets` | lib/cfuhash.c:463-465 | a put resizes if and only if it adds a key to a table that is not frozen and makes 4 times the entries exceed 3 times the buckets; then to the least power of two not below twice the entries, counting the resize |
| `TableCost.DeleteBuckets` | lib/cfuhash.c:546-549 | a delete resizes if and only if it removes a key from a table that may shrink and leaves 4 times the entries below the buckets; a table frozen until it grows may shrink after its first resize |
| `TableCost.ClearBuckets` | lib/cfuhash.c:505-508 | a clear leaves one bucket if the table may shrink, and all of them if not |
| `TableCost.GrowthDoubles` | lib/cfuhash.c:463-465 | a growth at more than 3/4 at least doubles the buckets |
| `TableCost.ShrinkHalves` | lib/cfuhash.c:546-549 | a shrink of more than one bucket at less than 1/4 at least halves them |
| `TableCost.RehashSettles` | lib/cfuhash.c:818-822 | a resize never calls for another |
| `TableCost.StepCost` | lib/cfuhash.c:424-553 | the work of one put or delete is paid by 16 units and the loss of potential |
| `TableCost.AmortisedResizing` | lib/cfuhash.c:812-843 | over any run of puts and deletes from a fresh table, buckets scanned plus entries relinked are at most 16 for each operation |
| `HashTable.ComputeHashSize` | lib/cfuhash.c:106-112 | the doubling loop computes `HashSize` |
| `HashTable.HashTable.constructor` | lib/cfuhash.c:152-175 | an empty table of the rounded size |
| `HashTable.HashTable.GetData` | lib/cfuhash.c:357-388 | the data found in the chain, if any; nothing changes |
| `HashTable.HashTable.FindEntry` | lib/cfuhash.c:376-378 | the first entry of the chain with an equal key |
| `HashTable.HashTable.PutData` | lib/cfuhash.c:424-468 | the table, chain by chain, is that of `TableModel.Put`; what was there before; the work of a growth |
| `HashTable.HashTable.ReplaceData` | lib/cfuhash.c:448-455 | overwrites the data of one entry in place |
| `HashTable.HashTable.AddEntry` | lib/cfuhash.c:332-351 | a new entry at the head of its chain, and one more entry |
| `HashTable.HashTable.MoveEntry` | lib/cfuhash.c:828-832 | relinks one entry to the head of its new chain |
| `HashTable.HashTable.MoveChain` | lib/cfuhash.c:826-833 | relinks a chain from its head |
| `HashTable.HashTable.MoveAll` | lib/cfuhash.c:825-834 | relinks all chains; none shares an entry with another |
| `HashTable.HashTable.DoRehash` | lib/cfuhash.c:812-843 | the table is that of `TableModel.Rehash`; whether it changed; the work done |
| `HashTable.HashTable.DeleteData` | lib/cfuhash.c:514-553 | the table is that of `TableModel.Delete`; the deleted data; the work of a shrink |
| `HashTable.HashTable.UnlinkEntry` | lib/cfuhash.c:530-542 | cuts one entry out of its chain, at the head or behind it |
| `HashTable.HashTable.Clear` | lib/cfuhash.c:484-512 | the table is that of `TableModel.Clear` |
| `HashTable.HashTable.KeysData` | lib/cfuhash.c:558-604 | all keys in bucket order, each chain from its head, as many as entries |
| `TableIteration.Cursor.EachData` | lib/cfuhash.c:611-619 | starts at the first entry in the order of the keys |
| `TableIteration.Cursor.NextData` | lib/cfuhash.c:621-647 | moves to the next entry, and reports the end after the last one |
| `TableIteration.Cursor.Walk` | lib/cfuhash.c:611-647 | iterating sees every entry exactly once, in the order of `cfuhash_keys_data` |
| `TableMerge.CopiedRefines` | lib/cfuhash.c:199-221 | copying overrides the target's map with the source's, through any resize |
| `TableMerge.Copy` | lib/cfuhash.c:199-221 | the target is that of `Copied`; the source is unchanged |
| `TableMerge.Merge` | lib/cfuhash.c:223-233 | a fresh table made of both, either of which may be NULL; neither changes |
| `TableMerge.MergeRefines` | lib/cfuhash.c:223-233 | the merged map is the first overridden by the second |
| `AstPrinter.Put` | src/ast.c:116 | `sprintf` at an offset: the text, a NUL, and nothing else changed |
| `AstPrinter.ReadF` | src/ast.c:112-199 | writes exactly `Show` of the tree at the offset, a NUL after it, changes nothing else, and returns the end; the reader of `AstReader` gives the tree back from these bytes, all of them |
| `AstPrinter.ReadLines` | src/ast.c:124-132 | the loop over statements or arguments |
| `AstPrinter.ReadIf` | src/ast.c:180-193 | an `if`, with or without `else` |
| `AstPrinter.ReadParams` | src/ast.c:163-165 | the loop that writes a comma after each parameter |
| `AstPrinter.ReadProto` | src/ast.c:157-170 | a prototype; the last comma is overwritten |
| `AstShow.TreeBack` | src/ast.c:112-199 | a printed tree, whatever follows it, is read back with what follows: by its headings and operators, brackets, commas and numbers without leading zeros, on lines indented by 2 |
| `AstShow.PrintingInjective` | src/ast.c:112-199 | trees that print to the same bytes at the same indentation are equal |
| `CfuString.CfuString.constructor` | lib/cfustring.c:64-74 | an empty string, with the given room |
| `CfuString.CfuString.Append` | lib/cfustring.c:107-160 | appends a string, or nothing for NULL; how large the buffer becomes |
| `CfuString.CfuString.Reserve` | lib/cfustring.c:126-146 | growing moves the buffer and keeps the string |
| `CfuString.CfuString.GetBufferCopy` | lib/cfustring.c:167-175 | a fresh copy of the string with its NUL |
| `Bencode.BencodeStrings` | lib/cfuhash.c:873-906 | the text is `Encode` of the pairs in bucket order, through every growth of the buffer; the table is unchanged |
| `Bencode.BencodeRoundTrip` | lib/cfuhash.c:873-906 | a decoder for dictionaries of BEP 3, section "bencoding", with keys in any order, which refuses lengths with leading zeros, gives back the table's map |

## Left out

- CodegenCorrect.CompilerCorrect: for programs of top-level definitions, with non-empty blocks and an `else` for every `if`, because the code reads an unset value or NULL otherwise, and a nested definition clears the symbol table and moves the builder for good.
- CodegenWellFormed.GenBodyVerified: the verifier is modelled by its rules for what is emitted: terminators, phis, operands, dominance, types, call signatures. Its rules on attributes, metadata and linkage are not. The branch of codegen_funcdef for a function it rejects is dead under the modelled rules.
- Codegen.Declare: the path for an existing function without a body is modelled, but no top-level program reaches it with success.
- Phis of a block are run one after another; the generator emits one phi for each block, where this is what LLVM does.
- Constant folding in the LLVM builder, the JIT, object files, dumps, and the wrapping of a program in `main` by lilc_emit.
- IEEE 754: literals are exact naturals, and the compiler theorem holds for any operations on doubles.
- Lexer.Lexer.ConsumeNumber: does not model the rounding of a literal beyond 2^53.
- Parser.Parser.Parse: a source is a C string; reading on past its end stays at the end. Undefined behaviour ends the run: a seventeenth argument or parameter, a callee that is no variable, and an `else` where an operand or an operator is expected, which reads past the table of handlers.
- Error messages, `die` and reading files: a program that dies is a run with no result.
- HashTable.HashTable.PutData: thresholds are the exact 3/4 and 1/4; float rounding and counts beyond 32 bits are not modelled. Data sizes, free functions, locks, CFUHASH_NOCOPY_KEYS and user-set thresholds are left out. Reallocation never fails.
- TableModel.KeyEqualExact: `tolower` is that of ASCII. A NULL key is the empty key, which hashes to 0 too under the default hash function; the hash function is otherwise arbitrary.
- TableIteration.Cursor.NextData: the iterator's fields are kept in an object of their own, beside the table.
- cfuhash_foreach_remove, which unlinks entries without counting them, and so breaks the table.
- AstPrinter.ReadF: needs a large enough buffer, as the C code does; literals are written as exact naturals with `.0`.
- Bencode.BencodeStrings: for keys that are C strings; data is a C string or NULL, which is written as the empty string.
- cfustring_append_n with a length, whose loop never advances, and the split and printf families.
- kv_resize, kv_copy, kv_pop and kv_a: easy facts about the same fields.
