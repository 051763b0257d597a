# A verified model of a toy APL/J interpreter core

This project models, in Dafny, the core of a small array-language interpreter
written in C. The core covers:

- reference-counted array values with broadcasting addition;
- a state-machine lexer and its tokens;
- two generations of syntax trees: their construction, evaluation, printing and freeing;
- a recursive-descent parser with one token of lookahead;
- a growable C string;
- a linear-probing symbol table;
- slab and pool memory allocators.

There is one Dafny module per C file:

| module | file | C source | form |
|---|---|---|---|
| `Common` | common.dfy | shared | `long`/`size_t` widths, `<ctype.h>` classes, `printf("%ld")` text and `strtol` |
| `Values` | value.dfy | src/value/value.c | class `Value` with methods; binop proved against `Broadcast` |
| `Tokens` | token.dfy | src/token/token.c | class `Token` over a 2048-byte buffer |
| `Lex` | lex.dfy | src/lex/lex.c | class `Lexer`; state loop proved against the reference scanner `Scan` |
| `Ast` | ast.dfy | src/ASTNode/ASTNode.c | tree datatype over `Value` objects |
| `Parse` | parse.dfy | src/parse/parse.c | class `Parser`; methods proved against the grammar functions `Expr`/`Op` |
| `OldAst` | oldast.dfy | src/parse/ASTNode.c | the earlier snapshot; value type and addition are parameters |
| `Mem` | mem.dfy | src/mem/mem.c | classes `SlabAlloc` and `PoolAlloc` over abstract pointers |
| `Symbols` | symtable.dfy | src/symtable/symtable.c | class `SymTable` over an array of slots |
| `Strings` | strbuf.dfy | src/string/string.c | class `StringBuf` over a character array |

How the model stands in for what C leaves to the environment:

- **Allocation.** `malloc`, `realloc` and `mem_alloc` may fail. Every call that allocates takes a `granted` flag saying whether it succeeded.
- **Programmer contracts.** An `assert` that guards the caller's side of a contract becomes a `requires`.
- **Input errors.** An `assert(0)`, `exit` or abort that bad input can reach becomes the error case of a `Result`:
  - a token longer than the lexer buffer;
  - an unexpected token in the parser;
  - mismatched shapes in `binop`.
- **Hashing.** The symbol table's `XXH64` is a function parameter.
- **Reading tokens.** The parser's `read_token` is a finite token sequence that yields EOF once it is exhausted.
- **Integer widths.** Unsigned words are `u64` values with explicit wrap-around (`tmp_add`). A `long` is an unbounded `int` kept within `LONG_MIN..LONG_MAX` where the source converts between them.

Where the source and its evident intent differ, the model holds both:

- a member modelling the code as written, with a lemma or method that exhibits the difference;
- the corrected member, which the rest of the model uses.

They are listed under "## Findings".

## Model

| member | source | states |
|---|---|---|
| Common.Signed | src/value/value.c:137 | the `long` with the bits of an unsigned word: within LONG_MIN..LONG_MAX and congruent to it modulo 2^64 |
| Common.Unsigned | src/ASTNode/ASTNode.c:95-98 | the cast of a `long` to `unsigned long` is undone by `Signed` |
| Common.AddU64 | src/value/value.c:199-204 | unsigned addition: the plain sum below 2^64, the sum less 2^64 otherwise |
| Common.DigitValue | src/lex/lex.c:100 | a digit's value is below 10 and `DigitChar` of it gives the digit back |
| Common.Decimal | src/value/value.c:137 | canonical decimal text: at least one digit, only digits, no leading zero |
| Common.DecimalRoundTrip | src/parse/parse.c:202 | reading canonical decimal text back gives the number printed |
| Common.DecimalLength | src/value/value.c:127 | a number below 10^k prints in at most k digits |
| Common.LongText | src/parse/parse.c:101 | `"%ld"` text is non-empty and holds no blank |
| Common.LongTextFits | src/value/value.c:127 | `"%ld"` never needs more than 20 characters for a 64-bit `long` |
| Common.SkipSpaces | src/lex/lex.c:87-95 | the first non-space at or after i, never before i |
| Common.SkippedSpaces | src/lex/lex.c:90-92 | every character skipped is white space |
| Common.DigitEnd | src/lex/lex.c:99-103 | the first non-digit at or after i |
| Common.DigitRun | src/lex/lex.c:99-103 | every character before DigitEnd is a digit |
| Common.Strtol | src/parse/parse.c:202 | strtol in base 10 yields a value within the `long` range |
| Common.StrtolDecimal | src/parse/parse.c:202 | strtol reads canonical decimal text back, saturating at LONG_MAX |
| Common.StrtolLongText | src/parse/parse.c:202 | strtol inverts `printf("%ld")` on every `long` |
| Common.StrtolNegated | src/parse/parse.c:202 | a minus sign and digits read back as the negated number |
| Common.JoinSpacesSnoc | src/value/value.c:136-140 | joining one more part adds a blank and the part |
| Common.FirstSpace | src/lex/lex.c:112 | the index of the first blank, or the length when there is none, in both directions |
| Common.SplitJoin | src/value/value.c:136-140 | splitting at blanks undoes joining with blanks when no part holds a blank |
| Values.Value.Shape | src/value/value.c:2-11 | the shape is the first `rank` slots of `sd` |
| Values.Value.Elems | src/value/value.c:2-11 | the elements are the `ecount` slots after the shape |
| Values.Value.AsView | src/value/value.c:2-11 | the view of a shaped value is one value.c can build: the shape's product matches the element count |
| Values.Value.MakeSingle | src/value/value.c:60-72 | a rank-0 value with one element and one reference |
| Values.Value.MakeVector | src/value/value.c:75-90 | a rank-1 value of shape [1], `acount` 1, room for 11 extra slots |
| Values.Value.CopyContainer | src/value/value.c:156-169 | same rank, shape and type, `acount == ecount`, one reference; the element slots, which the C leaves unwritten, are zero in the model |
| Values.Value.Append | src/value/value.c:92-107 | the last shape entry grows by one, the atom is appended, the capacity doubles when full |
| Values.Value.Reference | src/value/value.c:109-113 | the same value with one more reference |
| Values.Value.Free | src/value/value.c:115-122 | one reference fewer; the storage is released exactly at zero |
| Values.Value.Stringify | src/value/value.c:125-142 | the elements as `"%ld"` separated by single blanks, and the text fits the buffer allocated |
| Values.PrintElems | src/value/value.c:135-139 | the loop writes each element's text and a blank, at most 21 characters each |
| Values.ElemText | src/value/value.c:137-138 | one element's `"%ld "`: the signed reading of the word, then a blank, within 21 characters |
| Values.Snprintf | src/value/value.c:137 | the text copied at `pos`, followed by a NUL |
| Values.BufferCovers | src/value/value.c:127-130 | the buffer of (20+1)*(ecount+2)*(rank+1) bytes holds 21 characters per element and the NUL |
| Values.ElemTexts | src/value/value.c:136-139 | one `"%ld"` text per element, in order |
| Values.SpacedJoin | src/value/value.c:140 | removing the trailing blank leaves the elements joined by single blanks |
| Values.RenderRoundTrip | src/value/value.c:125-142 | reading each word of the printed value back with strtol gives every element as a `long` |
| Values.PrefixesAgree | src/value/value.c:145-153 | true exactly when the first rank-w shape entries of `a` equal `w`'s shape |
| Values.ApplyBinop | src/value/value.c:173-180 | `cnt` results op(a[i], w[i]) written at the result offset; nothing else changes |
| Values.Broadcast | src/value/value.c:182-197 | the intended result has `a`'s element count |
| Values.PartialBroadcast | src/value/value.c:190-195 | the as-written result has `a`'s element count |
| Values.BlocksIsProduct | src/value/value.c:191-192 | the loop's offset after n blocks is n times the block size |
| Values.BlocksFit | src/value/value.c:191-194 | before the last block there is room for one more |
| Values.Combine | src/value/value.c:190-195 | the elements after the loop keep `a`'s element count |
| Values.BlockStep | src/value/value.c:192-194 | one `apply_binop` call extends the finished prefix by one block of `w` |
| Values.BinopBlocks | src/value/value.c:191-195 | the outer loop finishes `reps` blocks and leaves the shape slots alone |
| Values.BinopLoop | src/value/value.c:190-195 | the result keeps its shape, and its elements are `Combine`'s |
| Values.BinopAsWritten | src/value/value.c:182-197 | an error exactly on disagreeing prefixes; otherwise a fresh value of `a`'s shape whose elements are `PartialBroadcast` with the rank-derived repetition count |
| Values.AgreeCounts | src/value/value.c:190 | with agreeing prefixes, w's elements tile a's once or a's count times |
| Values.Binop | src/value/value.c:182-197 | an error exactly on disagreeing prefixes; otherwise a fresh value of a's shape whose elements are `Broadcast` of a over w |
| Values.TmpAdd | src/value/value.c:199-204 | the sum modulo 2^64 |
| Values.AddViews | src/value/value.c:206-215 | the sum takes the shape and type of the higher-rank operand |
| Values.AddOrdered | src/value/value.c:206-215 | defined exactly on agreeing prefixes; a's shape and type |
| Values.Add | src/value/value.c:206-215 | a fresh value whose view is `AddViews`, or an error exactly when `AddViews` fails |
| Values.AddAsWritten | src/value/value.c:206-215 | as written: the same error cases; otherwise the shape and type of the higher-rank operand, with `PartialBroadcast` elements at the rank-derived count, for both orders of the operands |
| Values.AddCommutes | src/value/value.c:208-212 | the swap is sound: the sum of views commutes |
| Values.AddScalar | src/value/value.c:206-215 | a scalar agrees with every shape and is added to every element |
| Values.AddVectors | src/value/value.c:206-215 | two vectors add exactly when their lengths agree, elementwise |
| Values.AddExampleBroadcast | src/value/value.c:206-215 | 10 + 1 2 3 is 11 12 13 |
| Values.AddExampleMismatch | src/value/value.c:186-189 | shapes [3] and [2] are a shape error |
| Values.BinopAsWrittenCounterexample | src/value/value.c:190-195 | rank 1 over rank 0 repeats once: 1 2 3 + 10 gives 11 followed by two unwritten slots (zero in the model), not 11 12 13 |
| Values.PartialBroadcastEqualRanks | src/value/value.c:190 | when ranks are equal the as-written count coincides with the intended one |
| Tokens.Token.Text | src/token/token.c:11-15 | a valid token's text is `size` characters long and holds no NUL |
| Tokens.Token.Alloc | src/token/token.c:29 | fresh storage of MAX_SIZE characters |
| Tokens.AllocToken | src/token/token.c:23-40 | reuses `prev`, or fresh storage when malloc succeeds, NULL otherwise; the token is emptied and valid |
| Tokens.TokenMake | src/token/token.c:42-57 | an out-of-memory error exactly when allocation fails; an invalid-token error exactly when the text is not a C string of length `slen`; otherwise a valid token of that type and text |
| Tokens.GetType | src/token/token.c:59-63 | the stored type |
| Tokens.GetValue | src/token/token.c:65-69 | the stored text, `size` characters, no NUL |
| Lex.SpaceEnd | src/lex/lex.c:112-115 | the first white-space character at or after i, or the end |
| Lex.WordKind | src/lex/lex.c:118-124 | LET exactly for "let", OPERATOR exactly for "+", IDENTIFIER otherwise |
| Lex.ScanAt | src/lex/lex.c:128-157 | one token from the start state: its text fits the buffer and holds no NUL; it halts exactly at EOF, and only at the end |
| Lex.NumberScan | src/lex/lex.c:97-107 | a NUMBER of the digit run, or too long |
| Lex.WordScan | src/lex/lex.c:109-126 | a word up to the next white space, which is consumed; too long, or past the end |
| Lex.Scan | src/lex/lex.c:159-174 | skipping white space then `ScanAt`: the cursor always advances |
| Lex.InnerNotNul | src/lex/lex.c:149 | a C string holds no NUL before its end |
| Lex.NulNotSpace | src/lex/lex.c:131-134 | NUL is neither white space nor a digit |
| Lex.Lexer.Make | src/lex/lex.c:23-30 | the start state, an empty zeroed buffer, no input |
| Lex.Lexer.Init | src/lex/lex.c:176-183 | the start state, an empty buffer, the cursor at the start of the input |
| Lex.Lexer.Next | src/lex/lex.c:77-80 | the character at the cursor, which moves forward |
| Lex.Lexer.Backup | src/lex/lex.c:82-85 | the cursor moves back one |
| Lex.Lexer.AppendChar | src/lex/lex.c:38-42 | the buffer gains the character and keeps its contents; ok exactly when the length stays below 2047 |
| Lex.Lexer.AppendCstr | src/lex/lex.c:44-50 | ok exactly when the text fits; then the buffer gains it |
| Lex.Lexer.EmitToken | src/lex/lex.c:56-69 | the type is set, the text NUL-terminated, the token marked emitted |
| Lex.Lexer.CleanupTokenCache | src/lex/lex.c:71-75 | an empty buffer, nothing emitted |
| Lex.Lexer.LexSpace | src/lex/lex.c:87-95 | the cursor moves past the white space to the next non-space; back to start |
| Lex.Lexer.LexNumber | src/lex/lex.c:97-107 | emits exactly the token `NumberScan` reads, or its error |
| Lex.Lexer.ReadDigits | src/lex/lex.c:99-104 | succeeds exactly when `NumberScan` does, with its text and position |
| Lex.Lexer.CopyDigits | src/lex/lex.c:99-103 | copies the digit run, and fails exactly when it is too long |
| Lex.Lexer.LexIdentifier | src/lex/lex.c:109-126 | emits exactly the token `WordScan` reads, or its error |
| Lex.Lexer.ReadWord | src/lex/lex.c:111-117 | fails exactly when `WordScan` does, with the same error; else its text and position |
| Lex.Lexer.CopyWord | src/lex/lex.c:111-115 | too long exactly when the word reaches 2047 characters; past the end only when no white space follows |
| Lex.Lexer.LexStart | src/lex/lex.c:128-157 | the next state by the character class; a one-character token for punctuation, "End of string" and a halt at NUL |
| Lex.Lexer.LexToken | src/lex/lex.c:159-174 | from the start state, the token `Scan` reads, or its error, and the cursor after it; once halted, token_make rejects the stale buffer |
| Lex.Lexer.RunStates | src/lex/lex.c:163-165 | the state loop ends with `Scan`'s token emitted, or with `Scan`'s error |
| Lex.Lexer.Step | src/lex/lex.c:164 | one state function lowers the loop's rank and keeps the token pending or emits `Scan`'s |
| Lex.Lexer.StartStep | src/lex/lex.c:128-157 | the start state's step keeps the loop invariant |
| Lex.Lexer.SpaceStep | src/lex/lex.c:87-95 | the space state's step keeps the loop invariant |
| Lex.Lexer.NumberStep | src/lex/lex.c:97-107 | the number state's step emits `Scan`'s token or its error |
| Lex.Lexer.IdentifierStep | src/lex/lex.c:109-126 | the identifier state's step emits `Scan`'s token or its error |
| Lex.DigitEndBeyond | src/lex/lex.c:134-136 | a number starts at a digit, so its run is non-empty |
| Lex.NumberTooLong | src/lex/lex.c:41 | a run of 2047 or more digits is too long |
| Lex.NumberFound | src/lex/lex.c:97-107 | a shorter run is a NUMBER token of exactly those digits |
| Lex.WordTooLong | src/lex/lex.c:41 | a word of 2047 or more characters is too long |
| Lex.WordPastEnd | src/lex/lex.c:112-115 | a word that runs to the end of the input reads past its NUL |
| Lex.WordFound | src/lex/lex.c:109-126 | a word followed by white space is a token of its kind and text, the blank consumed |
| Lex.SpaceEndBeyond | src/lex/lex.c:153-155 | an identifier starts at a non-space, so it is non-empty |
| Lex.LexAll | src/lex/lex.c:159-174 | repeated lex_token: the last token is EOF and no earlier one is |
| Lex.SpaceEndAt | src/lex/lex.c:112-115 | the scan stops at the first white space |
| Lex.ScanWord | src/lex/lex.c:109-126 | a plain word followed by a blank lexes as that word |
| Lex.ScanEnd | src/lex/lex.c:149-152 | at the NUL the only token is EOF "End of string" |
| Lex.LexAllCons | src/lex/lex.c:159-174 | a non-final token is followed by the tokens lexed from after it |
| Lex.TerminatedSplit | src/lex/lex.c:112-116 | a blank-terminated source splits at the end of its first word |
| Lex.LexWords | src/lex/lex.c:87-157 | plain words, each followed by a blank, lex back to those words in order and then EOF, with their kinds |
| Lex.LexWordStep | src/lex/lex.c:109-126 | one word of the induction of `LexWords` |
| Lex.ConsWord | src/lex/lex.c:159-174 | the texts and kinds of one more token |
| Lex.RParenText | src/lex/lex.c:141-144 | as written, ")" lexes as an RPAREN whose text is "(" |
| Lex.WordAtEnd | src/lex/lex.c:111-115 | "let x" without a trailing blank reads past the end |
| Ast.MakeStatementList | src/ASTNode/ASTNode.c:128-138 | no siblings, room for ten |
| Ast.ExtendStatementList | src/ASTNode/ASTNode.c:140-153 | the statement appended; the capacity doubles exactly when the last slot fills |
| Ast.ListCapacity | src/ASTNode/ASTNode.c:140-153 | a list built by extension holds exactly the statements given, in order, with capacity `CapFor` and always a free slot |
| Ast.ListContents | src/ASTNode/ASTNode.c:142 | the statements are kept in order |
| Ast.ListCap | src/ASTNode/ASTNode.c:143-152 | the capacity after k extensions is `CapFor(k)` |
| Ast.Build | src/ASTNode/ASTNode.c:140-153 | a list built by extension is a statement list with a free slot |
| Ast.CapFor | src/ASTNode/ASTNode.c:143-152 | the capacity after k extensions exceeds k, is at least ten, and at most twice k past ten |
| Ast.Denote | src/ASTNode/ASTNode.c:155-177 | what evaluation denotes is a well-formed view |
| Ast.Eval | src/ASTNode/ASTNode.c:155-177 | the result's view is `Denote`; it is a stored value with one more reference or a fresh value with one; all other counts are unchanged |
| Ast.PassThrough | src/ASTNode/ASTNode.c:166-173 | UNOP, ASSIGNMENT and STATEMENT_LIST evaluate to their operand, right side and last statement |
| Ast.EvalLeaf | src/ASTNode/ASTNode.c:170-171 | a VALUE node gives its value with one more reference |
| Ast.EvalSum | src/ASTNode/ASTNode.c:159-165 | a BINOP gives a fresh sum with one reference, and every other count returns to what it was |
| Ast.EvalOperands | src/ASTNode/ASTNode.c:160 | both operands evaluated left first, each holding one reference more, or the first error |
| Ast.AddRelease | src/ASTNode/ASTNode.c:161-163 | value_add then value_free of each operand: the sum's view, one reference fewer on each operand |
| Ast.ReleaseBoth | src/ASTNode/ASTNode.c:162-163 | each operand loses one reference, or two when they are the same value |
| Ast.ChildValues | src/ASTNode/ASTNode.c:40-70 | the values of every child are among the parent's |
| Ast.SiblingsBagWithin | src/ASTNode/ASTNode.c:60-64 | the values of the first k siblings are among the list's |
| Ast.FreeNode | src/ASTNode/ASTNode.c:40-70 | each value loses one reference per leaf holding it, and is released exactly when its count reaches zero |
| Ast.FreeBoth | src/ASTNode/ASTNode.c:46-49 | both children freed, left first, with the same accounting |
| Ast.FreeSiblings | src/ASTNode/ASTNode.c:60-65 | the loop frees the `use` siblings in order, with the same accounting |
| Ast.ParseNum | src/ASTNode/ASTNode.c:95-98 | the unsigned word whose signed reading is strtol's result |
| Ast.MakeValue | src/ASTNode/ASTNode.c:100-108 | a VALUE node over a fresh value holding the parsed number: a scalar for size 1, a one-element vector otherwise |
| Ast.ExtendVector | src/ASTNode/ASTNode.c:110-116 | the same node, its vector one element longer with the parsed number at the end |
| Ast.Stringify | src/ASTNode/ASTNode.c:180-253 | the text is `Show`; a BINOP's buffer is llen+dlen+rlen+2 characters, a UNOP's strlen(monad)+strlen(rest)+1 |
| Ast.Show | src/ASTNode/ASTNode.c:180-253 | the text Stringify prints: "L op R", "op R", value_stringify of a VALUE, "<L> := <R>" for an ASSIGNMENT, and a list's statements each as "<" s "> " |
| Ast.ShowSiblings | src/ASTNode/ASTNode.c:209-236 | the text of a list's first k statements, each as "<" s "> ", in order |
| Ast.StringifyList | src/ASTNode/ASTNode.c:209-236 | a list prints as "<" s "> " for each statement in order |
| Ast.ShowEach | src/ASTNode/ASTNode.c:214-217 | one text per statement, each the statement's `Show` |
| Ast.BracketedSiblings | src/ASTNode/ASTNode.c:222-229 | a list's text is its statements' texts, each bracketed |
| Ast.StringifyEach | src/ASTNode/ASTNode.c:210-217 | the first loop: every statement's text and their summed length |
| Ast.CopyBracketed | src/ASTNode/ASTNode.c:219-230 | the copies fill the buffer of total+3*use+1 bytes but its last byte, and the NUL goes there |
| Ast.CopyOne | src/ASTNode/ASTNode.c:223-228 | "<", the text, then "> " after what was there |
| Ast.BracketedStep | src/ASTNode/ASTNode.c:222-229 | one more statement adds its bracketed text and its length |
| Ast.Memcpy | src/ASTNode/ASTNode.c:225 | the bytes copied at `pos` |
| Ast.TotalLengthSnoc | src/ASTNode/ASTNode.c:216 | the summed length grows by the new text's |
| Ast.TotalLengthPrefix | src/ASTNode/ASTNode.c:219 | a prefix and the next text fit within the total |
| Ast.ListNulOverruns | src/ASTNode/ASTNode.c:230 | as written, the NUL index counts the brackets twice: "1" gets a 5-byte buffer and its NUL at 7, and every non-empty list's NUL lies past the buffer |
| Ast.ListNulAtAsWritten | src/ASTNode/ASTNode.c:230 | the index the list's NUL is written at as written: the running length after the copies, brackets included, plus three per statement once more |
| Parse.Read | src/parse/parse.c:38 | a token other than EOF lies within the stream |
| Parse.Expr | src/parse/parse.c:181-197 | a parse consumes at least one token, and is followed by EOF or ")" |
| Parse.Op | src/parse/parse.c:212-234 | a parse consumes at least one token |
| Parse.Parser.constructor | src/parse/parse.c:12-21 | an empty lookahead buffer, nothing read |
| Parse.Parser.ReadToken | src/parse/parse.c:38 | the next token of the stream |
| Parse.Parser.Peek | src/parse/parse.c:35-41 | the token at the parse position, read at most once |
| Parse.Parser.Next | src/parse/parse.c:43-51 | the token at the parse position, which moves forward; it becomes `last_popped` |
| Parse.Parser.ParseExpr | src/parse/parse.c:181-197 | fails exactly when `Expr` does, with its error; otherwise `Expr`'s tree and position |
| Parse.Parser.ParseOp | src/parse/parse.c:212-234 | fails exactly when `Op` does, with its error; otherwise `Op`'s tree and position |
| Parse.ParseStream | src/parse/parse.c:236-240 | the tree of the whole stream is `Expr` from its first token |
| Parse.Eval | src/parse/parse.c:116-126 | eval: a BINOP is the sum of its operands' values, a NUMBER its number, a UNOP its operand's value |
| Parse.Show | src/parse/parse.c:87-114 | stringify: "L op R" for a BINOP, the `"%ld"` text for a NUMBER, "op R" for a UNOP |
| Parse.SumAppend | src/parse/parse.c:120 | the sum distributes over concatenation |
| Parse.EvalIsSum | src/parse/parse.c:116-126 | eval is the sum of the tree's numbers, left to right |
| Parse.TokensOf | src/parse/parse.c:87-114 | every tree stands for at least one token |
| Parse.TextsAppend | src/parse/parse.c:92 | texts distribute over concatenation |
| Parse.ShowIsJoin | src/parse/parse.c:87-114 | stringify prints its tokens' texts joined by single blanks |
| Parse.JoinAppend | src/parse/parse.c:92 | joining two non-empty runs puts one blank between them |
| Parse.ParseTokensOf | src/parse/parse.c:181-234 | the tokens of a canonical tree, followed by EOF or ")", parse back to that tree, consuming them all |
| Parse.ParseLaid | src/parse/parse.c:181-234 | the induction of `ParseTokensOf` over a tree laid out in the stream |
| Parse.TokensLaid | src/parse/parse.c:181-234 | a canonical tree's tokens lay it out |
| Parse.NumLaid | src/parse/parse.c:222-224 | a number's token lays it out |
| Parse.UnopLaid | src/parse/parse.c:225-227 | an operator and its operand's tokens lay out a UNOP |
| Parse.BinopLaid | src/parse/parse.c:188-191 | a number, an operator and the right side's tokens lay out a BINOP |
| Parse.NumToken | src/parse/parse.c:166-173 | a number stands for one NUMBER token with its `"%ld"` text |
| Parse.UnopTokens | src/parse/parse.c:156-164 | a UNOP's tokens are its operator and then its operand's |
| Parse.BinopTokens | src/parse/parse.c:145-154 | a BINOP's tokens are its number, its operator, then its right side's |
| Parse.SliceSplit | src/parse/parse.c:190 | a laid-out concatenation splits into its parts |
| Parse.ExprNum | src/parse/parse.c:183-187 | a number followed by EOF or ")" parses as that number |
| Parse.OpUnop | src/parse/parse.c:225-227 | an operator before an expression parses as a UNOP |
| Parse.ExprBinop | src/parse/parse.c:188-191 | a number, an operator and an expression parse as a BINOP |
| Parse.OpNum | src/parse/parse.c:199-203 | a NUMBER token parses to strtol of its text |
| Parse.PrintedWords | src/parse/parse.c:87-114 | splitting a canonical tree's printed text at blanks gives its tokens' texts |
| Parse.TokenTextsAreWords | src/parse/parse.c:92 | the tokens of a canonical tree hold no blank |
| Parse.FreeNodeAsWritten | src/parse/parse.c:128-143 | as written: only the root and its direct children are released, each once and children first; a lone NUMBER releases nothing |
| Parse.FreeNodeLeaks | src/parse/parse.c:128-143 | the left operand of a nested BINOP is never released, nor a tree that is a single NUMBER |
| Parse.Under | src/parse/parse.c:128-143 | the nodes one step further down |
| Parse.FreeTree | src/parse/parse.c:128-143 | the intended free_node's release order: both operand trees, left first, then the node itself, for every kind of node |
| Parse.FreeTreeReleasesAll | src/parse/parse.c:128-143 | the intended free_node releases exactly the tree's nodes, each once, each after the nodes below it |
| Parse.UnderIn | src/parse/parse.c:128-143 | a node lies below child k exactly when its path starts with k |
| Parse.UnderFacts | src/parse/parse.c:128-143 | moving a release order down one step keeps it duplicate-free and children-first |
| Parse.SeparateJoin | src/parse/parse.c:128-143 | the release orders of the two operands and the root combine in order |
| Parse.EvalShowExample | src/parse/parse.c:87-126 | "1 + 2" evaluates to 3 and prints as "1 + 2" |
| Parse.ParseExample | src/parse/parse.c:181-234 | the tokens 1 + 2 EOF parse to the BINOP 1 + 2 |
| Parse.ParseRejects | src/parse/parse.c:192-195 | two numbers in a row are rejected at the second |
| OldAst.Lift | src/parse/ASTNode.c:107-114 | the later parser's tree with its numbers as values; number leaves stay number leaves |
| OldAst.Eval | src/parse/ASTNode.c:58-68 | Eval: add_values of a BINOP's evaluated operands, a NUMBER's value, a UNOP's operand passed through |
| OldAst.Stringify | src/parse/ASTNode.c:29-56 | Stringify: "L op R", value_stringify of a NUMBER's value, "op R" |
| OldAst.EvalAsLong | src/parse/ASTNode.c:58-68 | with `long`s and "+" for add_values, Eval is the later eval and the sum of the numbers |
| OldAst.StringifyAsLong | src/parse/ASTNode.c:29-56 | with `"%ld"` for value_stringify, Stringify prints what the later stringify prints |
| OldAst.PrintParseEval | src/parse/ASTNode.c:29-68 | a canonical tree prints to its tokens' texts, which parse back to the same tree with the same value |
| OldAst.Skeleton | src/parse/ASTNode.c:4-18 | the shape of a tree, numbers forgotten; number leaves stay leaves |
| OldAst.FreeNodeAsWritten | src/parse/ASTNode.c:70-84 | as written: the root and its direct children only, each once, children first |
| OldAst.FreeNodeLeaks | src/parse/ASTNode.c:70-84 | the left operand of a nested BINOP is never released |
| OldAst.FreeNode | src/parse/ASTNode.c:70-84 | as intended: exactly the tree's nodes, each once, each after the nodes below it |
| Mem.Indices | src/mem/mem.c:71-74 | the slabs 0..n-1 in list order |
| Mem.FastPathAsWritten | src/mem/mem.c:81-83 | the fast-path test as written: the pointer lies in the current slab above its link word and at most at `cur`, and the new size is below the largest slab allocation |
| Mem.InPlace | src/mem/mem.c:81-83 | the fast-path test as intended: the block is the one handed out last, ending at `cur`, and its new end stays in the slab |
| Mem.ReallocOverlaps | src/mem/mem.c:82-86 | the fast path as written resizes a block that is not the last, over the block after it |
| Mem.SlabAlloc.constructor | src/mem/mem.c:24-36 | one slab with the cursor past its link word; no slab when malloc fails |
| Mem.SlabAlloc.AddSlab | src/mem/mem.c:4-22 | one more slab with the cursor past its link word; nothing changes when malloc fails |
| Mem.SlabAlloc.Alloc | src/mem/mem.c:43-65 | an oversized request goes to malloc; a fitting one is the cursor, which moves up; otherwise a new slab, or NULL; a slab block overlaps nothing handed out before |
| Mem.SlabAlloc.Realloc | src/mem/mem.c:77-94 | the last block is resized in place; any other block moves to a fresh block, or NULL; blocks never overlap |
| Mem.SlabAlloc.GrowLast | src/mem/mem.c:84-86 | the block gets its new size, the cursor follows its end, and no two blocks overlap |
| Mem.SlabAlloc.Link | src/mem/mem.c:71 | a slab's link is the next slab of the list |
| Mem.SlabAlloc.DeinitAsWritten | src/mem/mem.c:67-75 | as written: every slab but the last is freed, in order |
| Mem.SlabAlloc.Deinit | src/mem/mem.c:67-75 | as intended: every slab freed once, in order |
| Mem.PointerSizedPoolRejected | src/mem/mem.c:103-109 | the size init_pool_alloc raises to fails the check as written; every raised size passes the intended check |
| Mem.ElementSizeOkAsWritten | src/mem/mem.c:108 | the element-size check as written: strictly more than a pointer's size |
| Mem.ElementSizeOk | src/mem/mem.c:108 | the element-size check as intended: at least a pointer's size, so a free element holds its link |
| Mem.PoolAllocAsWritten | src/mem/mem.c:134-157 | as written: a popped free element is dropped from the list |
| Mem.PoolDropsFreedElement | src/mem/mem.c:138-153 | a freed element is not handed out and has left the free list |
| Mem.PoolOverrunsBlock | src/mem/mem.c:143-153 | a full 56-byte pool block at offset 8 of a 64-byte slab still finds room, and the element handed out ends past the block |
| Mem.PoolOverrunsAnyFullBlock | src/mem/mem.c:143-153 | whenever the block lacks room but the slab-sized check passes, the element handed out is `used` and ends past the block |
| Mem.PoolLosesBase | src/mem/mem.c:145-150 | a failed add_pool leaves `base` NULL |
| Mem.PoolAlloc.constructor | src/mem/mem.c:120-126 | an empty free list, the element size raised to a pointer's |
| Mem.PoolAlloc.AddPool | src/mem/mem.c:111-118 | a new pool block from the slab, `base` and `used` at its start; NULL both when it fails |
| Mem.PoolAlloc.Alloc | src/mem/mem.c:134-157 | a freed element first; else the next element of the block; when it has no room, a new block appended to the slab's blocks and its start handed out; NULL only when that block's malloc fails, with nothing changed; the slab list moves only when a block is opened; every element lies in its block |
| Mem.PoolAlloc.Free | src/mem/mem.c:159-164 | the element becomes the head of the free list |
| Mem.InitPool | src/mem/mem.c:120-132 | a pool over the slab with its first block, or the result 1 when malloc fails |
| Mem.FreeThenAlloc | src/mem/mem.c:134-164 | a freed element is the next one handed out |
| Symbols.Succ | src/symtable/symtable.c:30-31 | the next probe slot lies in the table |
| Symbols.DistInjective | src/symtable/symtable.c:30-31 | distinct slots lie at distinct probe distances from a home slot |
| Symbols.PathStep | src/symtable/symtable.c:28-32 | one probe step adds one to the distance and passes exactly the slot left |
| Symbols.ModSucc | src/symtable/symtable.c:30-31 | `(hash+1) % cap` wraps to 0 after the last slot |
| Symbols.EntriesUpdate | src/symtable/symtable.c:42-43 | storing a pair in an EMPTY slot adds exactly that pair to the contents |
| Symbols.EntriesToUpdate | src/symtable/symtable.c:42-43 | the same, for a prefix of the slots |
| Symbols.EmptySlotExists | src/symtable/symtable.c:39-41 | a table with fewer entries than slots has an EMPTY slot |
| Symbols.EmptySlotBelow | src/symtable/symtable.c:39-41 | the same, within a prefix |
| Symbols.EntriesCount | src/symtable/symtable.c:56-60 | a prefix holds no more entries than the whole table |
| Symbols.InEntries | src/symtable/symtable.c:57 | a SET slot's pair is among the contents |
| Symbols.EntriesMember | src/symtable/symtable.c:79-80 | a pair among the contents sits in some SET slot |
| Symbols.Room | src/symtable/symtable.c:66-67 | after the load check, the table has room for one more entry |
| Symbols.SymTable.Home | src/symtable/symtable.c:37-38 | the home slot of a key lies in the table |
| Symbols.SymTable.constructor | src/symtable/symtable.c:17-26 | 1024 EMPTY slots, `use` 0, seed 0 |
| Symbols.SymTable.Next | src/symtable/symtable.c:28-32 | the hash moves up by one and the slot is the one it now selects |
| Symbols.SymTable.ProbeEmpty | src/symtable/symtable.c:37-41 | the first EMPTY slot from the key's home; every slot passed is SET |
| Symbols.SymTable.InsertEntry | src/symtable/symtable.c:35-45 | as intended: the pair is stored in that slot, adding exactly it to the contents; every other slot is unchanged |
| Symbols.SymTable.InsertEntryAsWritten | src/symtable/symtable.c:35-45 | as written: the EMPTY slot is found but stays EMPTY, because the pair goes into a local copy |
| Symbols.SymTable.ProbeKey | src/symtable/symtable.c:74-78 | stops at an EMPTY slot or a key matching on strlen(key) bytes; every slot passed is SET with a key that does not match |
| Symbols.SymTable.NotStored | src/symtable/symtable.c:81-83 | a probe ending at EMPTY means the key is in no entry |
| Symbols.SymTable.Find | src/symtable/symtable.c:72-84 | a value found belongs to an entry whose key starts with the key; NULL only when the key is in no entry |
| Symbols.SymTable.ReinsertAll | src/symtable/symtable.c:56-60 | reinserting every SET slot of the old array gives the same contents |
| Symbols.SymTable.ReinsertSlot | src/symtable/symtable.c:57-59 | one step: a SET slot is reinserted, an EMPTY one skipped |
| Symbols.SymTable.Expand | src/symtable/symtable.c:48-62 | twice the slots, the same contents, the same `use` |
| Symbols.SymTable.Push | src/symtable/symtable.c:64-70 | as intended: the table grows when use >= 3/4 of cap; the pair is added; `use` counts it |
| Symbols.SymTable.PushAsWritten | src/symtable/symtable.c:64-70 | as written: the same growth, but neither the contents nor `use` change |
| Symbols.OnlyPushedMatches | src/symtable/symtable.c:72-84 | when no stored key starts with the key, a value found after a push is the one pushed |
| Symbols.NoneMatches | src/symtable/symtable.c:72-84 | when no stored key starts with the key, find returns NULL |
| Symbols.PushAsWrittenLosesKey | src/symtable/symtable.c:64-70 | as written, a key pushed into a table where no key starts with it is not found afterwards |
| Symbols.PushThenFind | src/symtable/symtable.c:64-84 | as intended, the same push is found, with its value |
| Symbols.EmptyEntries | src/symtable/symtable.c:55 | all-EMPTY slots hold no entry |
| Strings.Pow2 | src/string/string.c:58 | a power of GROWTH is at least 1 |
| Strings.GrowToSmallest | src/string/string.c:78-81 | the doubling loop's capacity is cap*2^k, exceeds the need, and half of it does not |
| Strings.StringBuf.Contents | src/string/string.c:3-7 | the string is `len` characters |
| Strings.StringBuf.Make | src/string/string.c:96-111 | the empty string in a fresh buffer of 100 bytes |
| Strings.StringBuf.EmptyString | src/string/string.c:17-23 | length 0 and a NUL at the start, buffer kept |
| Strings.StringBuf.GetLengthAsWritten | src/string/string.c:35-39 | as written: one less than the length, and 2^64-1 for the empty string |
| Strings.StringBuf.GetLength | src/string/string.c:35-39 | as intended: the length |
| Strings.StringBuf.GetText | src/string/string.c:41-45 | the buffer, holding the string and then a NUL |
| Strings.StringBuf.Enlarge | src/string/string.c:47-56 | realloc: on success the new capacity and the old bytes kept; on failure 1 and nothing changes |
| Strings.StringBuf.AppendCharAsWritten | src/string/string.c:59-73 | as written: growth only when len == cap; the NUL lands in the buffer exactly when len+1 < cap (or a grown buffer of more than one byte) |
| Strings.StringBuf.AppendChar | src/string/string.c:59-73 | as intended: the string gains the character; the capacity doubles when the NUL would not fit; a failed growth returns 1 and changes nothing |
| Strings.StringBuf.NewCap | src/string/string.c:78-81 | the capacity loop's result is `GrowTo` |
| Strings.StringBuf.AppendCStr | src/string/string.c:75-94 | the string gains `t`; the capacity is the smallest doubling that fits; a failed growth returns 1 and changes nothing |
| Strings.StringBuf.MoveIn | src/string/string.c:88-91 | `t` and its NUL after the string |
| Strings.MakeString | src/string/string.c:96-111 | a valid empty string of capacity 100 exactly when both mallocs succeed, NULL otherwise |
| Strings.AppendCharOverruns | src/string/string.c:59-73 | as written, the 100th character of a new string puts the NUL at byte 100 of a 100-byte buffer |
| Strings.GetLengthOffByOne | src/string/string.c:35-39 | as written, the empty string has length 2^64-1 and "a" has length 0 |

## Left out

- Value storage: `value_append` may move the value with realloc; the model keeps the object's identity and grows `sd` in place.
- Value allocation failure: `mem_alloc` failure in value.c is an `assert`, not a recoverable path, so value constructors always succeed.
- Values.Value.CopyContainer: copy_value_container (value.c:156-169) leaves the element slots uninitialised; the model fills them with zero. So the slots that `PartialBroadcast` does not write read 0 here, where the C result holds whatever the allocation held.
- Values.Value.Shaped: requires rank 0 or 1. value.c builds only those ranks: value_make_single gives rank 0, value_make_vector rank 1, and value_append and copy_value_container keep the rank. So no value the source can build is excluded.
- value_make: `make_value` (src/ASTNode/ASTNode.c:100-108) calls `value_make(atom, init_size)`, which src/value/value.c does not define. The model takes it to be `value_make_single` for size 1 and `value_make_vector` otherwise. value.h's `Vm` parameter is not part of this model.
- print_value (value.c:13-53): debugging output to stderr.
- `binop`'s `exit` on mismatched shapes (value.c:186-189) is an error `Result`; the message is not modelled.
- Only INTEGER elements are modelled. The VECTOR, SYMBOL and FUNCTION element types of `union value_data` are not.
- token_free and token_size (token.c:18-21, 71-75): deallocation and `sizeof`, nothing to state beyond the allocation flags.
- Tokens.TokenMake: `memcpy(t->value, s, slen + 1)` copies from the caller's buffer. The model copies the whole `s` and checks it is a C string of length `slen`, which is what the assert after it demands.
- lexer_free (lex.c:32-36): deallocation.
- Lex.Lexer.AppendChar: the source asserts after the write and aborts. The model returns `ok == false`, which becomes the lexer's `TokenTooLong` error.
- `in_name` of lexer_init is stored and never read; the model drops it.
- Unop construction: in all three tree files, `make_unop` stores its operand in the union member `right`, while Eval, Stringify and free_node read `rest`:
  - src/ASTNode/ASTNode.c:83-91, src/parse/parse.c:156-164, src/parse/ASTNode.c:97-105;
  - `right` and `rest` occupy different words of the union, so a UNOP's `rest` is never set;
  - the model stores the operand as `rest`, the evident intent, and does not model the union layout.
- Ast.FreeNode: states only the value reference counts. The `free(n)` of every node struct and the `mem_dealloc` of a statement list's sibling array (src/ASTNode/ASTNode.c:40-70) are not tracked, since the tree is a value with no addresses of its own. The NULL no-op at the start of free_node has no counterpart: the datatype has no NULL node, and every child a constructor holds is present.
- Ast.Stringify: the intermediate strings freed after use are not tracked.
- Parse: `read_token` and the `infd` descriptor are not part of this model; the stream is a token sequence.
  - `free_parser` (parse.c:23-33) and the file output and `free_node` call of `parse` (parse.c:241-243) are left out.
  - `read_token`'s reuse of `last_popped` storage is not modelled.
- Parse.Eval: `long` overflow of the sum is not modelled; the sum is an unbounded integer. Signed overflow is undefined in C.
- OldAst: the snapshot calls `value_make_number`, `add_values` and a one-argument `value_stringify`, which src/value/value.c does not define. The value type, addition and printing are parameters.
- Mem: memory contents are not modelled, so `memcpy` moves no bytes. Blocks handed out by a direct malloc are not tracked among the slab blocks.
- Mem.SlabAlloc.Realloc: off the fast path, mem_slab_realloc copies `prev_size` bytes into the new block of `new_size` (mem.c:91). When a block shrinks without taking the fast path, that copy writes past the new block. Since memory contents are not modelled, the contract does not capture this overrun.
- Mem.InitPool: requires the raised element size plus a pointer to fit a slab, so that a pool block holds an element. The source does not check this case: neither init_pool_alloc (mem.c:120-132) nor add_pool (mem.c:111-118) compares the element size with a pool block, and the check at mem.c:108 compares it only with the size of a pointer. An element bigger than `slab_size - sizeof(void *)` is handed out past the end of its pool block (mem.c:143-153). Mem.PoolOverrunsAnyFullBlock, with `used` at `base`, states this for such an element no bigger than a slab.
- mem_pool_deinit and mem_slab_free (mem.c:96-101, 167): no-ops, kept as empty `Free`.
- Mem.SlabAlloc.constructor: `init_slab_alloc` with too small a slab (below the link word) is excluded by its `requires`.
- Symbols: `XXH64` is the `hash` parameter. The seed is a constant 0, since nothing writes it after `symtable_make`. The `size_t` wrap of the hash counter is not modelled.
- Symbols.SymTable.constructor: `symtable_make` never points `entries` at its allocation, nor clears it. The model follows the evident intent: an array of 1024 EMPTY slots.
- Symbols.SymTable.Find: the `memcmp` of strlen(key) bytes is modelled as "the key is a prefix of the stored key". This is what it tests for NUL-terminated keys.
- Symbols.SymTable.Expand: `mem_alloc` failure is an `assert` in the source, so growth always succeeds.
- Symbols.SymTable.PushAsWritten: the growth branch calls the intended Expand, not symtable_expand as written, which reinserts every entry through the same as-written insert_entry and so would leave the table empty. That branch is never reached in the source, since `use` stays 0 (nothing after symtable_make increments it).
- symtable_free (symtable.c:86-91): deallocation. The DELETED status is declared as a `Deleted` slot but never produced by the source; `SymTable.Valid` excludes it.
- free_string (string.c:25-33): deallocation.
- Strings.StringBuf.Make: `make_string` runs `empty_string`, whose validity check reads `cap` before it is set. The model sets `cap` after, as the source does, and needs only the buffer for the check.
- Strings.StringBuf.NewCap: `size_t` overflow of the doubling is not modelled.
- Lex.RParenText: `lex_start` appends "(" for a ")" token (lex.c:141-144). The model keeps that text as written; nothing in the core reads a parenthesis token's text.

## Findings

| source | as written | input that shows it | evidently intended | confidence | as-written member | corrected member |
|---|---|---|---|---|---|---|
| src/value/value.c:190-195 | repetitions are `a->rank - w->rank` when ranks differ, so a scalar is applied to only `w->ecount` elements | 1 2 3 + 10 gives 11 followed by two unwritten slots (zero in the model) | broadcast `w` over all of `a`'s elements: 11 12 13 | not executed | Values.BinopAsWrittenCounterexample | Values.Binop |
| src/parse/parse.c:128-143 | free_node frees only the direct children with `free`, and a NUMBER frees nothing | (1 + 2) + 3: the node of 1 leaks; a lone 1 leaks | free the whole tree, children first | not executed | Parse.FreeNodeLeaks | Parse.FreeTreeReleasesAll |
| src/parse/ASTNode.c:70-84 | free_node frees only the direct children with `free` | (1 + 2) + 3: the node of 1 leaks | free the whole tree, children first | not executed | OldAst.FreeNodeLeaks | OldAst.FreeNode |
| src/ASTNode/ASTNode.c:230 | the NUL goes at `total_len + 3 * use` after `total_len` already counts the brackets | one statement "1": 5-byte buffer, NUL at index 7 | NUL at `total_len`, the buffer's last byte | not executed | Ast.ListNulOverruns | Ast.CopyBracketed |
| src/mem/mem.c:138-153 | the element popped from the free list is overwritten by `tmp = a->used` | free an element, then allocate: a new element comes back and the freed one is lost | hand out the freed element | not executed | Mem.PoolDropsFreedElement | Mem.PoolAlloc.Alloc |
| src/mem/mem.c:143-144 | the room check compares against the whole slab size, not the pool block size | a full 56-byte block in a 64-byte slab still finds room | compare against the block size | not executed | Mem.PoolOverrunsBlock | Mem.PoolAlloc.Alloc |
| src/mem/mem.c:145-150 | a failed add_pool restores `used` but leaves `base` NULL | an allocation that needs a new block when malloc fails | restore both | not executed | Mem.PoolLosesBase | Mem.PoolAlloc.Alloc |
| src/mem/mem.c:108 | the element size must exceed the pointer size, though init raises it only to that size | init_pool_alloc with esize 8 | at least the pointer size | not executed | Mem.PointerSizedPoolRejected | Mem.InitPool |
| src/mem/mem.c:82-86 | the realloc fast path accepts any block of the current slab | grow the first of two 8-byte blocks to 16 bytes | resize in place only the block handed out last | not executed | Mem.ReallocOverlaps | Mem.SlabAlloc.Realloc |
| src/mem/mem.c:67-75 | deinit frees each slab's predecessor, so the last slab is never freed | any allocator | free every slab | not executed | Mem.SlabAlloc.DeinitAsWritten | Mem.SlabAlloc.Deinit |
| src/symtable/symtable.c:35-45 | insert_entry stores the pair into a local copy of the slot | push a key, then find it: NULL | store into the table | not executed | Symbols.PushAsWrittenLosesKey | Symbols.PushThenFind |
| src/symtable/symtable.c:64-70 | symtable_push never increments `use`, so the table never grows | any sequence of pushes | count the entry | not executed | Symbols.SymTable.PushAsWritten | Symbols.SymTable.Push |
| src/string/string.c:59-73 | growth only when `len == cap`, but the NUL goes at `len + 1` | 99 characters appended to a new string: the 100th character's NUL is written at byte 100 of 100 | grow when `len + 1 == cap` | not executed | Strings.AppendCharOverruns | Strings.StringBuf.AppendChar |
| src/string/string.c:35-39 | get_length returns `len - 1` | "" gives 2^64-1, "a" gives 0 | `len`, as strlen would | not executed | Strings.GetLengthOffByOne | Strings.StringBuf.GetLength |
