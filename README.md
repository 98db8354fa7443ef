# A verified model of the Language compiler

The Language repository is a small batch compiler for a C-like language. It
runs in four stages:

- a table-driven lexer turns the source text into tokens;
- a recursive-descent parser turns the tokens into an abstract syntax tree;
- a code generator walks the tree with a scope-chain symbol table and writes
  assembly text for a stack machine;
- a two-pass assembler turns that text into a stream of `int`s, written to a
  file behind a `start_ip` and an element count.

The compiler carries its own containers, and the model covers each of them:

- a chained hash map (FNV-1a-64 hashing, Knuth multiplicative indexing, keys
  compared by their common prefix);
- an index-based doubly linked list with a fake slot 0 and a free-slot chain;
- a growable stack with its verifier;
- a growable character buffer;
- a few string helpers and the operator and type name tables of the tree dumper.

The project has one Dafny module per source file:

| module | file | source |
|---|---|---|
| `Common` | common.dfy | C character classes, `%zu`/`%d` printing, `atoi`/`sscanf` integer conversion, FNV-1a, C-string keys |
| `Io` | io.dfy | src/io.c |
| `Buffer` | buffer.dfy | clibs/Buffer/src/buffer.c |
| `Stack`, `StackDump` | stack.dfy, stack_dump.dfy | clibs/Stack/src/stack.c, stack_dump.c |
| `HashTable` | hash_table.dfy | HashTable/src/hash_table.c as operations on a value |
| `HashTableMap` | hash_table_map.dfy | the same operations on an array of bucket chains, proved against the value operations |
| `IndexList` | index_list.dfy | List/list.c and clibs/List/list_private.c |
| `Ast` | ast.dfy | src/ast/ast.c (nodes with parent links in an arena) |
| `AstDump` | ast_dump.dfy | the name tables of src/ast_dump.c |
| `Lexer` | lexer.dfy | src/front_end/lexer.c |
| `Syntax`, `SyntaxParser` | syntax.dfy, syntax_parser.dfy | src/front_end/syntax.c: the parse as functions, the printer it inverts, and the parser over a token array |
| `SymbolTable` | symbol_table.dfy | src/symbol_table.c |
| `AsmGener`, `GenerFacts` | asm_gener.dfy, gener_facts.dfy | src/back_end/asm_gener.c and how it meets the parser's trees |
| `Asm`, `AsmFacts`, `AsmLabels` | asm.dfy, asm_facts.dfy, asm_labels.dfy | src/back_end/asm/asm.c: both passes, facts about them, and the tables as the code keys them |
| `AsmFile` | asm_file.dfy | the layout `AssemblerWriteFile` writes |
| `AsmDump` | asm_dump.dfy | src/back_end/asm/asm_dump.c |

The model follows the form of each file:

- Code that updates state in place is modelled as a class whose methods are
  proved against functions of the old state. This covers the list, the stack,
  the buffer, the hash map, the tree arena, the symbol table, the generator's
  state and the assembler's passes over its text buffer.
- The lexer, parser and name tables compute values, so they are modelled as
  functions with lemmas.
- A failing `assert` in the source (`assert(0)`, or a NULL dereference that an
  assertion guards) is an explicit `Abort` outcome, not a precondition.

Where the code and its documentation disagree, the model follows the code:

- `MAIN` pushes its own opcode before it records `start_ip`.
- `atoi` accepts trailing characters, so `12abc` assembles as 12.
- A number with a fraction becomes a DOUBLE token only when `strtod` stops
  exactly where the fraction ends.

## Model

| member | source | states |
|---|---|---|
| Common.CInt | src/front_end/lexer.c:171 | the `int` that `sscanf("%d")` and `atoi` store is a 32-bit value, and equals the decimal value whenever that fits in an `int` |
| Common.Wrap32 | src/back_end/asm/asm.c:429 | the low 32 bits of a value read as a two's-complement `int`: in range and congruent to the value modulo 2^32 |
| Common.ClampLong | src/back_end/asm/asm.c:429 | `strtol` under `atoi` saturates to the 64-bit `long` range and leaves in-range values alone |
| Common.NatToDec | src/back_end/asm_gener.c:799 | `%zu` prints a non-empty run of digits whose decimal value is the number |
| Common.NatToDecNoLeadingZero | src/back_end/asm_gener.c:799 | the printed counter starts with '0' exactly when it is 0 |
| Common.NatToDecInjective | src/back_end/asm_gener.c:799 | different counters print as different text, so label suffixes do not repeat |
| Common.IntToDec | src/back_end/asm_gener.c:725 | `%d` prints a non-empty text |
| Common.FirstMatchSpec | src/ast_dump.c:57-65 | the table lookup returns None exactly when no row has the key, and otherwise the string of the first row that has it |
| Common.FirstMatchAt | src/ast_dump.c:57-65 | the row the table lookup returns is the first with the key |
| Common.Fnv1aAppend | HashTable/src/hash_table.c:326-340 | FNV-1a consumes the bytes in order: hashing `a + b` is hashing `b` from the hash of `a` |
| Common.Key | src/symbol_table.c:137 | the `symbol_name, strlen(symbol_name) + 1` key: the name's bytes, all non-zero, followed by one NUL |
| Common.KeyInjective | src/symbol_table.c:137 | different names give different keys |
| Io.WordLen | src/io.c:77-85 | the word length is the longest prefix holding neither whitespace nor NUL: it stops at the first delimiter or at the end |
| Io.WordLenUnique | src/io.c:77-85 | any prefix free of delimiters and followed by one (or by the end) is the word `WordLen` measures |
| Io.SkipWord | src/io.c:77-85 | the index loop stops at the word length, on a delimiter or at the end |
| Io.GetWord | src/io.c:66-75 | NULL exactly when the word is empty, otherwise a copy of the word that, followed by the rest, gives back the input |
| Io.ConcatLength | src/io.c:87-113 | the joined string is as long as the sum of the arguments' lengths |
| Io.ConcatAt | src/io.c:106-108 | each character of the joined string is the character of the argument it was copied from, at the offset of that argument |
| Io.MultiStrCat | src/io.c:87-113 | the sizing loop and the `strcat` loop return the arguments joined in order, of the summed length |
| Buffer.Resized | clibs/Buffer/src/buffer.c:41-58 | after a resize the block has the new capacity, keeps the old bytes below the last slot, and its last slot is NUL |
| Buffer.NewCapacity | clibs/Buffer/src/buffer.c:44-46 | a requested capacity of 0 means double the current one; any other request is taken as is |
| Buffer.Buffer.Init | clibs/Buffer/src/buffer.c:16-39 | a new buffer is empty with `capacity` zeroed slots, and no block when the capacity is 0 |
| Buffer.Buffer.Realloc | clibs/Buffer/src/buffer.c:41-58 | the capacity becomes the requested (or doubled) one, the size is kept, the block is the resized old block with a NUL last slot |
| Buffer.Buffer.Release | clibs/Buffer/src/buffer.c:76-80 | the block shrinks to `size + 1` slots; the contents are kept and followed by one NUL |
| Buffer.Buffer.Read | clibs/Buffer/src/buffer.c:83-103 | the block gets `count + 1` slots; the read succeeds exactly when the input holds `count` characters, and then the buffer holds them followed by NUL with size `count + 1`; a short read keeps the size and reports `BUFFER_FREAD_FAILED` |
| Buffer.Buffer.CopyAt | clibs/Buffer/src/buffer.c:115 | the slots from `size` on receive the source, and the slots before `size` keep their contents |
| Buffer.Buffer.Push | clibs/Buffer/src/buffer.c:105-119 | the contents become the old contents followed by the source; the block grows by `2 * count + 2` slots exactly when `size + count + 1` reaches the capacity |
| Stack.StackErr.Code | clibs/Stack/include/stack.h:95-107 | each error has its enumerator's value, 0 only for `STACK_OK` |
| Stack.Stack.Make | clibs/Stack/src/stack.c:20-53 | a new stack is empty with the requested capacity and element size |
| Stack.Stack.Realloc | clibs/Stack/src/stack.c:55-75 | the capacity doubles and the elements are kept; a zero capacity cannot grow and reports `STACK_OVERFLOW` |
| Stack.Stack.Push | clibs/Stack/src/stack.c:103-124 | the elements become the old ones followed by `x`, the capacity doubling first exactly when `size + 1` reaches it and unchanged otherwise; a stack of zero capacity reports overflow and is unchanged |
| Stack.Stack.Pop | clibs/Stack/src/stack.c:126-153 | NULL on an empty stack; otherwise returns the top element and removes it, keeping the rest |
| Stack.Stack.Top | clibs/Stack/src/stack.c:155-172 | NULL exactly when the stack is empty, otherwise the top element, with nothing changed |
| Stack.Stack.Size | clibs/Stack/src/stack.c:174-178 | returns the number of elements |
| Stack.Stack.Empty | clibs/Stack/src/stack.c:180-184 | returns whether there are no elements |
| Stack.Init | clibs/Stack/src/stack.c:20-53 | NULL exactly when the capacity is above 1000 or the element size is 0, otherwise a fresh empty stack of that capacity |
| Stack.PushPop | clibs/Stack/src/stack.c:103-153 | pushing then popping returns the pushed element and leaves the elements as they were |
| StackDump.Fnv1aHash | clibs/Stack/src/stack_dump.c:98-108 | the byte loop returns 32-bit-prime FNV-1a of the bytes from the seed |
| StackDump.DataHash | clibs/Stack/src/stack_dump.c:91-96 | the data hash is 0 without data or elements, otherwise the hash of the bytes in use |
| StackDump.StackVerify | clibs/Stack/src/stack_dump.c:29-52 | `STACK_NULL_PTR` for NULL, otherwise the first failing check in source order, or `STACK_OK` |
| StackDump.StackVerifyOk | clibs/Stack/src/stack_dump.c:29-52 | a stack passes exactly when magic number, both canaries, size bound, element size, data hash and data pointer are all as the stack code keeps them |
| StackDump.ErrorNamesLookup | clibs/Stack/src/stack_dump.c:13-25 | the table row for each code 0..10 is the row at that index, and no row names any other value |
| StackDump.StackErrorMessage | clibs/Stack/src/stack_dump.c:114-120 | a known code gets its table name, and "NAN" is returned exactly for values outside 0..10 |
| StackDump.StackErrorMessageNamed | clibs/Stack/src/stack_dump.c:114-120 | every error the stack reports has a real name, never "NAN" |
| HashTable.KeyEqPrefix | HashTable/src/hash_table.c:303-306 | `KeyCmp` reports equal keys exactly when one key is a prefix of the other |
| HashTable.KeyEqTerminated | HashTable/src/hash_table.c:303-306 | two keys that each end with their terminator match under `KeyCmp` if and only if the strings are equal |
| HashTable.Fnv1aHash | HashTable/src/hash_table.c:326-340 | the byte loop of `fnv1a_hash` returns FNV-1a-64 of the key (offset basis and prime of the source) |
| HashTable.Pow2Ctz | HashTable/src/hash_table.c:318-320 | for a power of two, `__builtin_ctz` is its base-2 logarithm |
| HashTable.IndexValue | HashTable/src/hash_table.c:308-324 | the bucket of a key is the FNV hash times Knuth's constant modulo 2^64, reduced to the capacity (shift for a power of two, modulo otherwise) |
| HashTable.IndexBound | HashTable/src/hash_table.c:318-320 | the multiply-shift result is below a power-of-two capacity |
| HashTable.ChainFind | HashTable/src/hash_table.c:197-207 | the chain walk stops at the first entry whose key matches, and finds none exactly when no entry of the chain matches |
| HashTable.Init | HashTable/src/hash_table.c:35-53 | a new table has eight empty buckets, zero counters, and satisfies the table invariant |
| HashTable.Find | HashTable/src/hash_table.c:191-208 | a lookup fails exactly when no entry of the key's own bucket matches |
| HashTable.Rehash | HashTable/src/hash_table.c:103-147 | a rehash gives an array of the requested capacity and leaves both counters as they were |
| HashTable.RehashEffect | HashTable/src/hash_table.c:103-147 | a rehash keeps the invariant (every node in the bucket its key hashes to) and moves exactly the same entries |
| HashTable.Size | HashTable/src/hash_table.c:179-183 | the element count is the number of entries in the table |
| HashTable.Empty | HashTable/src/hash_table.c:185-189 | the table is empty exactly when it holds no entry |
| HashTable.InsertInChainEffect | HashTable/src/hash_table.c:216-248 | the chain insert keeps the invariant and either replaces the data of the first matching entry or appends exactly one new entry |
| HashTable.InsertInv | HashTable/src/hash_table.c:210-258 | `HashTableInsert` keeps the table invariant, whether or not it grows the array |
| HashTable.InsertExisting | HashTable/src/hash_table.c:222-232 | inserting under a key that matches replaces only that entry's data, leaves both counters alone, and the key then finds the new data |
| HashTable.InsertNew | HashTable/src/hash_table.c:239-255 | inserting an unmatched key appends it at the tail of its chain, counts a newly used bucket (modulo 2^64), counts one more element, and doubles the array exactly when the load factor reaches 0.75 |
| HashTable.TerminatedNoOtherMatch | HashTable/src/hash_table.c:303-306 | with keys that carry their terminator, no other key matches under `KeyCmp` |
| HashTable.InsertThenFind | HashTable/src/hash_table.c:210-258 | after an insert, a lookup of the same key returns the data just inserted |
| HashTable.EraseInChainInv | HashTable/src/hash_table.c:270-283 | unlinking the matching node keeps the invariant and removes exactly that entry |
| HashTable.EraseEffect | HashTable/src/hash_table.c:260-301 | `HashTableErase` returns 1 exactly when a lookup would succeed, changes nothing when it returns 0, and otherwise removes one matching entry, the one the lookup finds, and decrements the element count |
| HashTable.CapacityBounds | HashTable/src/hash_table.c:250-254 | an insert keeps or doubles the capacity and never exceeds 100000; an erase keeps or halves it and never goes below 8 |
| HashTable.TerminatedMatch | HashTable/src/hash_table.c:303-306 | two terminated keys that match under `KeyCmp` are equal |
| HashTable.InitHolds | HashTable/src/hash_table.c:35-53 | the new table represents the empty map |
| HashTable.FindHolds | HashTable/src/hash_table.c:191-208 | for terminated keys, a lookup in a table that represents a map is a lookup in that map |
| HashTable.InsertHolds | HashTable/src/hash_table.c:210-258 | for terminated keys, an insert keeps the invariant and the table then represents the map updated at that key |
| HashTableMap.HashMap.Init | HashTable/src/hash_table.c:35-53 | the new object holds the table `HashTable.Init` describes: eight empty buckets, zero counters |
| HashTableMap.HashMap.BucketIndex | HashTable/src/hash_table.c:308-324 | the index computed by the hash loop and the multiply-shift is the bucket `HashTable.Index` assigns to the key |
| HashTableMap.HashMap.Walk | HashTable/src/hash_table.c:197-207 | the chain walk stops at the position of the first matching entry, or at the chain's end exactly when none matches |
| HashTableMap.HashMap.Size | HashTable/src/hash_table.c:179-183 | returns the element count of the table the object holds |
| HashTableMap.HashMap.Empty | HashTable/src/hash_table.c:185-189 | returns whether the table the object holds is empty |
| HashTableMap.HashMap.Find | HashTable/src/hash_table.c:191-208 | the lookup over the bucket array returns what `HashTable.Find` gives for the object's table |
| HashTableMap.HashMap.MoveChain | HashTable/src/hash_table.c:116-134 | moving one old chain pushes each node, head first, onto the head of its bucket in the new array |
| HashTableMap.HashMap.Realloc | HashTable/src/hash_table.c:103-147 | the object then holds the rehashed table in a fresh bucket array, and the node count never disagrees with `element_cnt` (no leak report) |
| HashTableMap.HashMap.Insert | HashTable/src/hash_table.c:210-258 | the object then holds `HashTable.Insert` of its old table |
| HashTableMap.HashMap.Erase | HashTable/src/hash_table.c:260-301 | the object then holds `HashTable.Erase` of its old table, and the returned flag is the one `HashTable.Erase` gives |
| HashTableMap.HashMap.Unlink | HashTable/src/hash_table.c:272-283 | unlinking the `j`-th node of the key's chain leaves the object holding `HashTable.EraseInChain` of its old table |
| Ast.TypeOf | include/ast.h:6-12 | a payload has an undefined element type exactly when it carries no data |
| Ast.Stored | src/ast/ast.c:59-115 | `AST_NodeInit` keeps the element type and constant type, keeps in-range `int` constants, narrows `short` and `char` constants to their width, and copies names and tags unchanged |
| Ast.ParentSlot | src/ast/ast.c:193-208 | NULL for a root; otherwise the parent slot that holds the node (left checked first), and NULL only when neither of the parent's slots holds it |
| Ast.Detached | src/ast/ast.c:153-156 | clearing the slot that points at a node keeps the heap's size |
| Ast.ShapeFrame | src/ast/ast.c:122-165 | a change outside a tree's nodes leaves that tree, its node set and its post-order as they were |
| Ast.PostorderExactlyOnce | src/ast/ast.c:167-191 | the post-order visits every node of the tree exactly once and as many times as the tree has nodes |
| Ast.PostorderChildrenFirst | src/ast/ast.c:167-191 | in the post-order every node comes after both of its children |
| Ast.DetachChild | src/ast/ast.c:193-208 | detaching a child clears the left slot when it holds the child, otherwise the right one |
| Ast.ChildrenDestroyed | src/ast/ast.c:174-182 | after both subtrees are destroyed their nodes are dead, both slots of the node are NULL, and no other node changes |
| Ast.AfterDestroyEffect | src/ast/ast.c:122-191 | destroying a subtree in post-order frees exactly its nodes and clears the slot that pointed at it; nothing else changes |
| Ast.Ast.constructor | src/ast/ast.c:14-24 | a new AST has no root and size 0 |
| Ast.Ast.NodeInit | src/ast/ast.c:37-120 | a new live node holds the stored payload and the given links, and each non-NULL child is re-parented to it and found in the matching slot |
| Ast.Ast.NodeDestroy | src/ast/ast.c:122-165 | the parent's slot that held the node becomes NULL, the node's payload is reset, its links are cleared and it is freed |
| Ast.Ast.DestroySubtree | src/ast/ast.c:167-191 | the recursive traversal destroys the subtree's nodes in post-order, returns its node count, and changes nothing else |
| Ast.Ast.Destroy | src/ast/ast.c:26-35 | destroying the AST frees exactly the nodes of the tree in post-order and leaves every other node as it was |
| Ast.Ast.CountNodes | src/ast/ast.c:167-191 | the traversal without a callback returns the node count of the subtree |
| AstDump.GetStrOp | src/ast_dump.c:57-65 | NULL exactly when no row of `ast_operation_dict` is for the operation, otherwise the string of such a row |
| AstDump.GetStrConst | src/ast_dump.c:67-75 | NULL exactly when no row of `ast_const_dict` is for the type, otherwise the keyword of such a row |
| AstDump.NoOperationRow | src/ast_dump.c:21-43 | the table has no row for the logical connectives, calls, print or the undefined operation |
| AstDump.OperationRow | src/ast_dump.c:21-43 | every other operation has a row |
| AstDump.GetStrOpNull | src/ast_dump.c:57-65 | the name lookup returns NULL if and only if the operation is a logical connective, a call, print or undefined |
| AstDump.GetStrConstNull | src/ast_dump.c:67-75 | the keyword lookup returns NULL if and only if the type is VOID or UNDEFINED |
| AstDump.GetStrOpRows | src/ast_dump.c:22-36 | the statement separator is ";", addition "+", assignment "=" |
| AstDump.GetStrOpEscapesStrict | src/ast_dump.c:29-30 | `<` and `>` are printed with a backslash escape |
| AstDump.GetStrOpEscapesNonStrict | src/ast_dump.c:31-32 | `<=` and `>=` are printed with a backslash escape |
| AstDump.GetStrOpEquals | src/ast_dump.c:33 | equality prints as "==" |
| AstDump.GetStrOpNotEquals | src/ast_dump.c:34 | inequality prints as "!=" |
| AstDump.GetStrConstRows | src/ast_dump.c:47-53 | the five data types print as the keywords short, int, long, double and char |
| Lexer.Token.Type | include/front_end/front_end.h:86-95 | a token is VARIABLE exactly when it carries a name, and CONST exactly when it carries an `int` or `double` constant |
| Lexer.TableIsOk | src/front_end/lexer.c:29-76 | no row of `reference_types` is empty or starts with white space, a digit, an upper-case letter or NUL |
| Lexer.RunEnd | src/front_end/lexer.c:132-135 | the skip loops stop at the end of the longest run of the class: every character before is in it, the one at the end is not |
| Lexer.RunEndUnique | src/front_end/lexer.c:132-135 | any position with those two properties is the end of the run |
| Lexer.CloserAt | src/front_end/lexer.c:101-103 | the comment loop stops at the first `*/` from the start, or at the end of the text |
| Lexer.KeywordIsFirstMatch | src/front_end/lexer.c:111-121 | the table loop picks the first row that matches case-insensitively, and none exactly when no row matches |
| Lexer.Number | src/front_end/lexer.c:145-177 | the number rule moves past at least the digits and emits at most one token |
| Lexer.Step | src/front_end/lexer.c:88-184 | one turn of the loop never moves the cursor back and emits at most one token |
| Lexer.SkipRun | src/front_end/lexer.c:132-135 | the `while (cls(*s)) ++s;` loop stops at the end of the run |
| Lexer.SkipBlockComment | src/front_end/lexer.c:100-105 | the block-comment loop stops after the closing `*/`, or at the end of the text when there is none |
| Lexer.MatchKeyword | src/front_end/lexer.c:111-121 | the `for` loop over `reference_types` returns the row the first-match rule picks |
| Lexer.ScanNumber | src/front_end/lexer.c:145-177 | the digit loops followed by `strtod` or `sscanf` give the number rule's token and end |
| Lexer.SkipComments | src/front_end/lexer.c:94-105 | the comment checks leave the cursor after a line comment and then after a block comment |
| Lexer.ApplyRules | src/front_end/lexer.c:109-183 | the table loop, identifier rule, number rule and space loop give the rules' tokens and end |
| Lexer.LexicalAnalysis | src/front_end/lexer.c:82-189 | the loop returns the tokens of the whole text with END appended and the text's length, or stops (None) where the C loop would spin forever |
| Lexer.StepNoEnd | src/front_end/lexer.c:111-177 | no turn of the loop emits END |
| Lexer.LexEndsWithOneEnd | src/front_end/lexer.c:186-188 | the output ends with END, END occurs nowhere else, and the returned length is the text's length |
| Lexer.NoRowAt | src/front_end/lexer.c:111-121 | no row matches at white space, a digit or the terminator |
| Lexer.IdentifierIsMaximalRun | src/front_end/lexer.c:127-140 | where no row matches, a letter or `_` starts one identifier token holding the longest run of letters, digits and `_` |
| Lexer.IntegerLiteral | src/front_end/lexer.c:169-174 | a digit run not followed by `.` is one INT constant holding the value `sscanf("%d")` stores |
| Lexer.DoubleLiteral | src/front_end/lexer.c:154-168 | digits, `.`, digits is one DOUBLE constant holding its text, or no token at all when an exponent follows |
| Lexer.LineCommentSilent | src/front_end/lexer.c:94-98 | a `//` comment emits nothing; scanning resumes at its line end |
| Lexer.BlockCommentSilent | src/front_end/lexer.c:100-105 | a block comment emits nothing; scanning resumes after it |
| Lexer.SpacesSilent | src/front_end/lexer.c:181-183 | white space emits nothing |
| Lexer.StallIffNoRule | src/front_end/lexer.c:88-184 | a turn leaves the cursor in place exactly when no rule applies, and then the scan never finishes |
| Lexer.KeywordScan | src/front_end/lexer.c:111-121 | away from a comment, a matching row emits its type and moves past its spelling |
| Lexer.LessRow | src/front_end/lexer.c:56-58 | `<` always matches row 20 (LT), even before `=` |
| Lexer.GreaterRow | src/front_end/lexer.c:56-59 | `>` always matches row 21 (GT), even before `=` |
| Lexer.EqualsRow | src/front_end/lexer.c:60 | `==` matches the EE row, which comes before the row of `=` |
| Lexer.AssignRow | src/front_end/lexer.c:69 | a `=` not followed by another matches ASSIGNMENT |
| Lexer.LessEqualIsTwoTokens | src/front_end/lexer.c:56-69 | since the first match wins, `<=` scans as LT then ASSIGNMENT, and `>=` as GT then ASSIGNMENT |
| Lexer.LexLessEqual | src/front_end/lexer.c:82-189 | the text `<=` lexes to LT, ASSIGNMENT, END with length 2 |
| Lexer.EqualsIsOneToken | src/front_end/lexer.c:60 | `==` is one EE token, not two assignments |
| Lexer.IntRow | src/front_end/lexer.c:31 | `int` in any case matches the INT row, even when more letters follow |
| Lexer.IfRow | src/front_end/lexer.c:71 | `if` in any case matches STATEMENT_IF; the `int` and `input` rows before it do not match |
| Lexer.NoRowAtE | src/front_end/lexer.c:72 | an `e` that does not begin `else` starts no row |
| Lexer.IntScan | src/front_end/lexer.c:111-121 | `int` in any case scans as INT, and the scan resumes right after it |
| Lexer.IntegerIsIntThenIdent | src/front_end/lexer.c:111-140 | keywords need no word boundary: the word `integer` scans as INT then the identifier `eger` |
| Lexer.IdentScan | src/front_end/lexer.c:127-140 | where no row matches, a letter or `_` emits the identifier that runs from it |
| Lexer.UpperCaseIf | src/front_end/lexer.c:114 | keywords match in any case: `IF` lexes to STATEMENT_IF, END |
| Lexer.NoRowAtStray | src/front_end/lexer.c:29-76 | `@`, a `!` not before `=` and a `&` not before another match no row |
| Lexer.StrayCharacterStalls | src/front_end/lexer.c:88-184 | such a character makes no progress, so the scan never finishes |
| Lexer.LexStray | src/front_end/lexer.c:88-184 | the text `@` never finishes lexing |
| Lexer.NoRuleStalls | src/front_end/lexer.c:88-184 | at `@`, `!` or `&` where no row matches, no rule applies and the scan stops |
| Lexer.EgerScan | src/front_end/lexer.c:127-140 | inside the word `integer`, the scan after `int` emits the identifier `eger` and resumes after it |
| Syntax.BinaryOp | src/front_end/syntax.c:433-579 | an operator continues a level of the ladder only if it is not END |
| Syntax.Binary | src/front_end/syntax.c:433-579 | a level of the ladder never moves the cursor back and never consumes END |
| Syntax.Chain | src/front_end/syntax.c:440-448 | the `while` loop of a level never moves the cursor back and stops before END |
| Syntax.Primary | src/front_end/syntax.c:581-623 | `GetPrimary` never moves the cursor back and stops before END |
| Syntax.Expression | src/front_end/syntax.c:426-431 | `GetExpression` never moves the cursor back and stops before END |
| Syntax.DeclType | src/front_end/syntax.c:627-666 | a token names a declared type exactly when it is short, int, long, double, char or void |
| Syntax.SentinelChain | src/front_end/syntax.c:283-293 | a block is a SENTINEL node |
| Syntax.SetLast | src/front_end/syntax.c:160-163 | storing at the end of a block's right spine keeps the node's payload and left child |
| Syntax.VarDec | src/front_end/syntax.c:324-381 | a declaration either aborts or moves the cursor forward, strictly when it builds a node |
| Syntax.Assign | src/front_end/syntax.c:383-424 | an assignment either aborts or moves the cursor forward, strictly when it builds a node |
| Syntax.AssignLoop | src/front_end/syntax.c:396-420 | the loop at an `=` either aborts or builds a node past the `=` |
| Syntax.If | src/front_end/syntax.c:114-194 | an if-statement either aborts or moves the cursor forward, strictly when it builds a node |
| Syntax.Condition | src/front_end/syntax.c:130-147 | a parenthesised condition is non-NULL and moves past its `)` |
| Syntax.ElsePart | src/front_end/syntax.c:165-191 | the optional else part never moves the cursor back and always yields a node |
| Syntax.While | src/front_end/syntax.c:196-243 | a while-statement either aborts or moves the cursor forward, strictly when it builds a node |
| Syntax.Return | src/front_end/syntax.c:245-270 | a return statement either aborts or moves the cursor forward, strictly when it builds a node |
| Syntax.ExprStatement | src/front_end/syntax.c:305-322 | an expression statement either aborts or moves the cursor forward, strictly when it builds a node |
| Syntax.Block | src/front_end/syntax.c:272-303 | a block either aborts or moves the cursor forward, strictly when it builds a node |
| Syntax.Statements | src/front_end/syntax.c:286-293 | the statement loop collects only non-NULL statements and never moves the cursor back |
| Syntax.StatementParser | src/front_end/syntax.c:93-101 | each entry of the `statements[]` table either aborts or moves the cursor forward, strictly when it builds a node |
| Syntax.TryFrom | src/front_end/syntax.c:104-109 | the table loop either aborts or moves the cursor forward, strictly when it builds a node |
| Syntax.Statement | src/front_end/syntax.c:88-112 | `GetStatement` either aborts or moves the cursor forward, strictly when it builds a node |
| Syntax.SyntaxAnalysis | src/front_end/syntax.c:61-72 | a program the parser accepts has a non-NULL root |
| Syntax.OpLevel | src/front_end/syntax.c:433-579 | every operation belongs to one of the seven levels |
| Syntax.TokOpLevel | src/front_end/syntax.c:433-579 | an operator token builds an operation of its own level, and that operation is spelled by the token |
| Syntax.GraftBase | src/front_end/syntax.c:433-579 | putting back an expression's leftmost operand gives the expression |
| Syntax.RawSplit | src/front_end/syntax.c:433-579 | the tokens of an expression of level `lv` are its leftmost operand followed by `op operand` pairs of that level |
| Syntax.OpTokenLevel | src/front_end/syntax.c:433-579 | the token of a binary operation continues exactly its level and builds that operation |
| Syntax.ParsePrint | src/front_end/syntax.c:426-623 | parsing the printed form of any expression gives that expression back and stops right after it: operators group to the left and bind as the ladder orders them |
| Syntax.ParsePrimary | src/front_end/syntax.c:581-623 | a leaf token or a parenthesised expression parses back at level 6 |
| Syntax.PrimaryParen | src/front_end/syntax.c:610-618 | `(` expression `)` parses as the inner expression and moves past `)` |
| Syntax.ChainStep | src/front_end/syntax.c:440-448 | one turn of a level's loop builds the operator node over the tree so far and the next operand |
| Syntax.ChainStop | src/front_end/syntax.c:440-448 | a level's loop stops at a token that does not continue it |
| Syntax.ChainRest | src/front_end/syntax.c:440-448 | the loop over the printed `op operand` pairs of a run rebuilds the run around whatever operand it starts from |
| Syntax.ExpressionOfPrint | src/front_end/syntax.c:426-431 | `GetExpression` on a printed expression followed by a token that continues nothing returns that expression and its length |
| Syntax.LeftAssociative | src/front_end/syntax.c:433-579 | `a op1 b op2 c` with both operators on one level groups as `(a op1 b) op2 c` |
| Syntax.TighterBindsFirst | src/front_end/syntax.c:433-579 | a tighter operator binds first on either side of a looser one |
| Syntax.SentinelChainWalk | src/front_end/syntax.c:283-293 | following `right` from a block reaches each statement in order in `left`, and after the last one an empty SENTINEL |
| Syntax.SentinelCount | src/front_end/syntax.c:283-293 | a block has exactly one SENTINEL more than it has statements: the last one holds NULL on both sides |
| Syntax.SetLastChain | src/front_end/syntax.c:160-163 | the end-of-block store of `GetIfStatement` puts the else part in the right child of the block's last SENTINEL |
| Syntax.KeywordLed | src/front_end/syntax.c:114-303 | each keyword-led parser gives NULL without moving the cursor exactly when the leading token is not its keyword |
| Syntax.NullKeepsCursor | src/front_end/syntax.c:93-101 | every table entry but the last gives NULL only at the cursor it was called with |
| Syntax.StatementPicksFirst | src/front_end/syntax.c:104-109 | `GetStatement` returns the result of the first table entry that does not give NULL |
| Syntax.NoOperand | src/front_end/syntax.c:433-623 | at a token that starts no operand every level gives NULL and leaves the cursor in place |
| Syntax.NoStatementAtClose | src/front_end/syntax.c:88-112 | at `}` no statement parser applies and `GetStatement` gives NULL at the cursor |
| Syntax.EmptyBlock | src/front_end/syntax.c:272-303 | `{}` is one SENTINEL with both children NULL |
| Syntax.VarDecInit | src/front_end/syntax.c:338-366 | `T x = e;` is DECL(T) whose right child is ASSIGNMENT(VAR x, e) |
| Syntax.VarDecPlain | src/front_end/syntax.c:368-374 | `T x;` is DECL(T) whose right child is VAR x |
| Syntax.AssignChain | src/front_end/syntax.c:383-424 | `x1 = … = xn = e;` nests the targets to the left under ASSIGNMENT nodes with `e` as the outermost right child |
| Syntax.AssignTail | src/front_end/syntax.c:396-420 | the loop at `=` followed by `x1 = … xn = e;` builds that nest around the tree so far |
| Syntax.TopLevel | src/front_end/syntax.c:61-86 | the parser accepts exactly one if-statement followed by END, its tree is the program's, and a program not starting with `if` is rejected |
| Syntax.LexedTokens | src/front_end/lexer.c:186 | the lexer's output is a token list the parser accepts as input |
| Syntax.PrintNoAssign | src/front_end/syntax.c:426-579 | the tokens of an expression contain no ASSIGNMENT token |
| Syntax.ExprNotTarget | src/front_end/syntax.c:93-110 | `GetStatement` tries `GetAssignment` before `GetExprStatement`; the tokens of an expression statement never begin an assignment target, so it is not taken for one |
| SyntaxParser.Parser.constructor | src/front_end/syntax.c:66 | the cursor starts at the front of the token list |
| SyntaxParser.Parser.GetBinary | src/front_end/syntax.c:433-579 | the level parsers over the shared cursor return the tree `Syntax.Binary` describes and leave the cursor where it says |
| SyntaxParser.Parser.GetChain | src/front_end/syntax.c:440-453 | the `while` loop of one level folds each `op operand` pair onto the left operand and stops at the first token that does not continue the level, ending exactly where `Syntax.Chain` ends, with the tree it builds |
| SyntaxParser.Parser.GetPrimary | src/front_end/syntax.c:581-623 | returns the tree and end cursor of `Syntax.Primary` |
| SyntaxParser.Parser.GetExpression | src/front_end/syntax.c:426-431 | returns the tree and end cursor of `Syntax.Expression` |
| SyntaxParser.Parser.GetStatement | src/front_end/syntax.c:88-112 | the loop over `statements[]` returns `Syntax.Statement` and leaves the cursor at its end |
| SyntaxParser.Parser.RunEntry | src/front_end/syntax.c:93-105 | one table entry returns `Syntax.StatementParser` for it |
| SyntaxParser.Parser.GetIf | src/front_end/syntax.c:114-194 | returns `Syntax.If` and leaves the cursor at its end |
| SyntaxParser.Parser.GetCondition | src/front_end/syntax.c:130-147 | succeeds exactly when `Syntax.Condition` does, with its tree and end |
| SyntaxParser.Parser.GetElse | src/front_end/syntax.c:165-191 | returns `Syntax.ElsePart` and leaves the cursor at its end |
| SyntaxParser.Parser.GetWhile | src/front_end/syntax.c:196-243 | returns `Syntax.While` and leaves the cursor at its end |
| SyntaxParser.Parser.GetReturn | src/front_end/syntax.c:245-270 | returns `Syntax.Return` and leaves the cursor at its end |
| SyntaxParser.Parser.GetExprStatement | src/front_end/syntax.c:305-322 | returns `Syntax.ExprStatement` and leaves the cursor at its end |
| SyntaxParser.Parser.GetBlock | src/front_end/syntax.c:272-303 | the SENTINEL loop returns `Syntax.Block` and leaves the cursor at its end |
| SyntaxParser.Parser.GetVarDec | src/front_end/syntax.c:324-381 | returns `Syntax.VarDec` and leaves the cursor at its end |
| SyntaxParser.Parser.GetAssignment | src/front_end/syntax.c:383-424 | the `while (1)` loop returns `Syntax.Assign` and leaves the cursor at its end |
| SyntaxParser.Parser.GetG | src/front_end/syntax.c:74-86 | returns `Syntax.Program`: one if-statement kept only when END follows it |
| SyntaxParser.Parse | src/front_end/syntax.c:61-72 | the parse from the front of the list returns `Syntax.SyntaxAnalysis` |
| SymbolTable.KeyedNoOtherMatch | src/symbol_table.c:136-137 | a name passed with its terminating NUL (`strlen + 1` bytes) matches, under the map's prefix comparison, only the stored name equal to it |
| SymbolTable.NewScope | src/symbol_table.c:40-58 | the scope `SymbolTableEnterScope` allocates has an empty valid map, `prev` set to the old cursor, level 0 under NULL and one more than the parent's level otherwise |
| SymbolTable.NewScopeEmpty | src/symbol_table.c:48 | a freshly entered scope finds no name |
| SymbolTable.AppendScope | src/symbol_table.c:45-58 | adding the new scope keeps every scope's links and levels well formed |
| SymbolTable.InitState | src/symbol_table.c:12-35 | the initial table has one global scope at level 0 with an empty map, which is also the current scope, and no saved cursor |
| SymbolTable.AfterEnter | src/symbol_table.c:37-61 | entering a scope appends the new scope, makes it current, and leaves every earlier scope, the global scope and the saved cursors unchanged |
| SymbolTable.AfterExit | src/symbol_table.c:63-87 | exiting frees the current scope and keeps the table well formed; the cursor moves to a saved cursor when the parent is the global scope and one is saved, else to the parent |
| SymbolTable.AfterNewBranch | src/symbol_table.c:108-118 | a new branch pushes the cursor on the saved-cursor stack and resets the cursor to the global scope |
| SymbolTable.AfterDelBranch | src/symbol_table.c:120-130 | deleting a branch exits scopes until the one just below the global scope has been exited, keeping the table well formed; None when the walk reaches a NULL or freed cursor |
| SymbolTable.AfterDestroy | src/symbol_table.c:89-106 | destroying exits scopes until the cursor is NULL; no scope freed before becomes live again |
| SymbolTable.AfterInsert | src/symbol_table.c:158-181 | inserting touches only the current scope's map and keeps the table well formed and the cursors unchanged |
| SymbolTable.InsertKeyed | src/symbol_table.c:175-176 | inserting a name not present keeps the map valid and all its keys NUL-terminated |
| SymbolTable.AfterBump | src/back_end/asm_gener.c:422 | bumping raises the current scope's RAM offset by one and keeps the table well formed |
| SymbolTable.Chain | src/symbol_table.c:145-153 | the scopes a lookup walks, innermost first, never lie past the starting scope, and there are none only from NULL |
| SymbolTable.LevelIsDepth | src/symbol_table.c:54-58 | a scope's level equals the number of scopes above it on its prev chain |
| SymbolTable.ResolveFirst | src/symbol_table.c:140-156 | a lookup returns the binding in the first scope on the chain that has the name, after scopes that all lack it, and NULL when no scope has it |
| SymbolTable.ResolveFrame | src/symbol_table.c:145-153 | a lookup from a scope depends only on that scope and the ones allocated before it |
| SymbolTable.EnterKeepsLookups | src/symbol_table.c:37-61 | entering a scope changes no lookup result |
| SymbolTable.EnterThenExit | src/symbol_table.c:37-87 | entering then exiting frees only the new scope and, unless a saved cursor is restored, gives back the cursor and every lookup result |
| SymbolTable.EnterExitShape | src/symbol_table.c:37-87 | entering then exiting leaves the arena plus one freed scope, with the old cursor, or the last saved cursor popped when entered from the global scope |
| SymbolTable.InsertThenLookUp | src/symbol_table.c:158-181 | after an insert the current scope holds the earlier binding if the name was already there, else the new one at the scope's level, and a full lookup returns it |
| SymbolTable.EnterKeepsChainLive | src/symbol_table.c:37-61 | after entering a scope from a live chain, every scope a lookup walks is still allocated |
| SymbolTable.ExitKeepsChainLive | src/symbol_table.c:79-81 | with no saved cursor, exiting moves the cursor to the parent, whose chain is still allocated |
| SymbolTable.BumpKeepsChainLive | src/back_end/asm_gener.c:422 | bumping the RAM offset leaves every scope a lookup walks allocated |
| SymbolTable.DelBranchUnwinds | src/symbol_table.c:120-130 | deleting a branch frees exactly the run of scopes below the global scope and restores the most recently saved cursor |
| SymbolTable.EnterN | src/symbol_table.c:37-61 | entering n scopes appends n scopes, the last one current, and leaves the earlier ones unchanged |
| SymbolTable.EnterNRun | src/symbol_table.c:37-61 | the scopes entered after a new branch form one run hanging below the global scope |
| SymbolTable.EnterExtendsRun | src/symbol_table.c:37-61 | entering one more scope below such a run extends it |
| SymbolTable.UnwindBranch | src/symbol_table.c:120-130 | deleting a branch whose run was entered after the branch was opened restores the cursor and saved cursors, frees the run and leaves earlier scopes as they were |
| SymbolTable.BranchRoundTrip | src/symbol_table.c:108-130 | a new branch, n scopes entered, then deleting the branch gives back the cursor and saved cursors and leaves every earlier scope as it was |
| SymbolTable.DestroyFreesChain | src/symbol_table.c:89-106 | destroying a table with no saved cursor frees every scope on the current chain |
| SymbolTable.SymTable.Init | src/symbol_table.c:12-35 | the new table is valid and in the initial state |
| SymbolTable.SymTable.EnterScope | src/symbol_table.c:37-61 | the table's new state is the entered state |
| SymbolTable.SymTable.ExitScope | src/symbol_table.c:63-87 | the table's new state is the exited state, the saved-cursor stack popped when a cursor is restored |
| SymbolTable.SymTable.NewBranch | src/symbol_table.c:108-118 | the table's new state has the cursor pushed on the stack and the cursor at the global scope |
| SymbolTable.SymTable.DelBranch | src/symbol_table.c:120-130 | the table's new state is the deleted-branch state |
| SymbolTable.SymTable.Destroy | src/symbol_table.c:89-106 | the table's new state has every scope exited |
| SymbolTable.SymTable.LookUpCurrentScope | src/symbol_table.c:132-138 | the result is the current scope's binding of the name, or none |
| SymbolTable.SymTable.LookUp | src/symbol_table.c:140-156 | the result is the first binding on the scope chain, as characterised by ResolveFirst |
| SymbolTable.SymTable.Insert | src/symbol_table.c:158-181 | the table's new state is the inserted state; an existing name keeps its binding |
| SymbolTable.SymTable.BumpRamOffset | src/back_end/asm_gener.c:422 | the current scope's RAM offset goes up by one and the new offset is returned |
| AsmGener.FalseJump | src/back_end/asm_gener.c:532-674 | each comparison handler emits a conditional jump mnemonic (a 'J' instruction) taken when the comparison fails |
| AsmGener.Expand | src/back_end/asm_gener.c:803-816 | replacing each '#' with the number text grows the template by one number length less one per placeholder, and leaves no '#' when the number has none |
| AsmGener.Label | src/back_end/asm_gener.c:795-819 | a `CntLabel` result has no '#' left and is the template's length plus one decimal counter per placeholder |
| AsmGener.ExpandSameLength | src/back_end/asm_gener.c:803-816 | equal expansions of a template with a placeholder by numbers of equal length used the same number |
| AsmGener.LabelInjective | src/back_end/asm_gener.c:795-819 | two counter values give the same label from a template with a placeholder only when they are equal |
| AsmGener.Repeat | src/back_end/asm_gener.c:216-218 | the exit calls `ReturnHandler` emits, one per level, are n copies of the call |
| AsmGener.Emit | src/back_end/asm_gener.c:87-93 | a `BufferPush` only appends to the code, and leaves the table, the nesting and the counters alone |
| AsmGener.TakeIf | src/back_end/asm_gener.c:330-333 | `++if_cnt` after the labels raises the counter by one and records the value used, changing nothing else |
| AsmGener.TakeBool | src/back_end/asm_gener.c:546-547 | `bool_cnt++` after the label raises the counter by one and records the value used, changing no code |
| AsmGener.Open | src/back_end/asm_gener.c:337-338 | entering a scope and pushing `enter_scope_call` appends exactly that call and keeps the walk's invariant |
| AsmGener.Close | src/back_end/asm_gener.c:165 | `SymbolTableExitScope` keeps the walk's invariant and changes no code |
| AsmGener.Hops | src/back_end/asm_gener.c:749-752 | the number of frame hops a variable access emits: from the symbol's level up to one below the nesting, none when the symbol is deeper; undefined (None) at nesting 0, where the unsigned bound wraps |
| AsmGener.AccessGen | src/back_end/asm_gener.c:734-793 | a variable access only appends code and keeps the counters; an undeclared name emits nothing and the walk goes on; the walk stops exactly when the name is declared and the nesting is 0 |
| AsmGener.SetGen | src/back_end/asm_gener.c:765-793 | storing into a target only appends code and keeps the counters |
| AsmGener.Declare | src/back_end/asm_gener.c:447-451 | a declaration keeps the code, the nesting and the current scope |
| AsmGener.DeclareBinds | src/back_end/asm_gener.c:420-428 | after a declaration the frame offset is one higher, and the name resolves to the scope's earlier binding if it had one, else to a new variable symbol at the scope's level and the new offset |
| AsmGener.NodeGen | src/back_end/asm_gener.c:105-136 | every statement handler only appends code and grows the counters, and gives back the nesting it started with |
| AsmGener.StmtGen | src/back_end/asm_gener.c:109-133 | dispatch on the node's tag keeps the walk's invariant and the nesting |
| AsmGener.SentinelGen | src/back_end/asm_gener.c:138-171 | a block link keeps the walk's invariant and the nesting |
| AsmGener.InnerGen | src/back_end/asm_gener.c:152-156 | the statement of a link generated one level deeper, then the end of the link, keep the invariant and the nesting |
| AsmGener.LeftGen | src/back_end/asm_gener.c:154 | the statement of a link; for the NULL of the last link nothing happens |
| AsmGener.BlockEndGen | src/back_end/asm_gener.c:158-170 | the next link, or after the last one the end of the block, keeps the invariant and the nesting |
| AsmGener.BeginBlock | src/back_end/asm_gener.c:143-150 | the start of a link enters a scope only when the nesting is one past the current scope's level, and stops on a larger gap |
| AsmGener.EndBlock | src/back_end/asm_gener.c:158-165 | the end of a block emits the exit call unless at the global scope and exits the scope; it stops exactly when there is no current scope |
| AsmGener.DeclGen | src/back_end/asm_gener.c:173-188 | a declaration needs a right child and no left child; a variable with a body declares a function, anything else a variable |
| AsmGener.FuncDecGen | src/back_end/asm_gener.c:385-412 | a function declaration keeps the invariant and the nesting |
| AsmGener.ParamsGen | src/back_end/asm_gener.c:402-407 | the parameter loop keeps the invariant and the nesting |
| AsmGener.ParamGen | src/back_end/asm_gener.c:414-429 | a parameter declaration keeps the invariant and the nesting |
| AsmGener.DeclaredNode | src/back_end/asm_gener.c:449-450 | the node a variable declaration names is the declaration node itself or a node below it |
| AsmGener.VarDecGen | src/back_end/asm_gener.c:431-454 | a variable declaration, with the name of `int x;` taken from the identifier node, keeps the invariant and the nesting |
| AsmGener.VarDecInit | src/back_end/asm_gener.c:437-445 | the initialiser part of a declaration only appends code and keeps the table |
| AsmGener.VarDecAsWritten | src/back_end/asm_gener.c:431-454 | the handler as written keeps the invariant and the nesting when it completes |
| AsmGener.BareDeclAsWrittenAborts | src/back_end/asm_gener.c:449-451 | as written, `int x;` always stops the walk, because the name is read from a NULL child |
| AsmGener.BareDeclDeclares | src/back_end/asm_gener.c:431-454 | corrected, `int x;` completes and declares `x` in the current scope |
| AsmGener.ReturnGen | src/back_end/asm_gener.c:209-224 | a return keeps the invariant and the nesting |
| AsmGener.LeaveGen | src/back_end/asm_gener.c:216-221 | the end of a return keeps the invariant and the nesting |
| AsmGener.PrintGen | src/back_end/asm_gener.c:295-304 | a print keeps the invariant and the nesting |
| AsmGener.AssignGen | src/back_end/asm_gener.c:306-322 | an assignment only appends code and keeps the table and the if counter |
| AsmGener.ChainGen | src/back_end/asm_gener.c:312-321 | the chained-assignment loop only appends code and keeps the table and the if counter |
| AsmGener.IfGen | src/back_end/asm_gener.c:324-348 | an if statement keeps the invariant and the nesting |
| AsmGener.IfBody | src/back_end/asm_gener.c:330-345 | the part after the condition keeps the invariant and the nesting |
| AsmGener.IfHead | src/back_end/asm_gener.c:330-338 | the label and the new scope use one if number, raising the counter by one |
| AsmGener.WhileGen | src/back_end/asm_gener.c:350-381 | a while statement keeps the invariant and the nesting |
| AsmGener.LoopGen | src/back_end/asm_gener.c:362-373 | the part after the loop label keeps the invariant and the nesting |
| AsmGener.ExprGen | src/back_end/asm_gener.c:226-293 | an expression only appends code, keeps the table and the if counter, and uses exactly one comparison label per comparison and logical operator it generates |
| AsmGener.OpGen | src/back_end/asm_gener.c:248-292 | an operator node uses exactly the comparison labels its operators need |
| AsmGener.ArithGen | src/back_end/asm_gener.c:458-528 | an arithmetic operator uses only its operands' comparison labels |
| AsmGener.CompareGen | src/back_end/asm_gener.c:532-674 | a comparison uses its operands' comparison labels and one more |
| AsmGener.LandGen | src/back_end/asm_gener.c:676-690 | a logical and uses its operands' comparison labels and one more |
| AsmGener.LorGen | src/back_end/asm_gener.c:692-710 | a logical or generates its operands twice, so uses their comparison labels twice, and one more |
| AsmGener.CallGen | src/back_end/asm_gener.c:190-207 | a call uses exactly its arguments' comparison labels |
| AsmGener.ArgsGen | src/back_end/asm_gener.c:196-200 | the argument loop uses exactly the arguments' comparison labels |
| AsmGener.Start | src/back_end/asm_gener.c:64-93 | the setup pushes the prologue after the buffer's contents, with a fresh table, nesting 0 and both counters 0 |
| AsmGener.Finish | src/back_end/asm_gener.c:100 | destroying the table at the end leaves no current scope and changes nothing else |
| AsmGener.GenerateOutput | src/back_end/asm_gener.c:60-103 | a completed generation starts with the prologue, leaves no current scope, and has used each if and comparison label number from 0 up exactly once, in order |
| AsmGener.GeneratedLabelsDistinct | src/back_end/asm_gener.c:795-819 | the labels of a completed generation are pairwise distinct, so no label is defined twice |
| AsmGener.CntLabel | src/back_end/asm_gener.c:795-819 | the copy loop builds the template with each '#' replaced by "_" and the counter |
| AsmGener.Generator.constructor | src/back_end/asm_gener.c:64-84 | a new generator has a fresh symbol table, nesting 0 and both counters 0 |
| AsmGener.Generator.Run | src/back_end/asm_gener.c:86-102 | the generator completes exactly when the generation does, and ends in its state |
| AsmGener.Generator.Prologue | src/back_end/asm_gener.c:86-93 | the prologue is pushed and the state is the start state |
| AsmGener.Generator.Push | src/back_end/asm_gener.c:87 | the new state is the old one with the text appended |
| AsmGener.Generator.BumpIf | src/back_end/asm_gener.c:333 | the new state has the if counter bumped |
| AsmGener.Generator.BumpBool | src/back_end/asm_gener.c:547 | the new state has the comparison counter bumped |
| AsmGener.Generator.OpenScope | src/back_end/asm_gener.c:337-338 | the new state has a scope entered and the call emitted |
| AsmGener.Generator.CloseScope | src/back_end/asm_gener.c:165 | the new state has the current scope exited |
| AsmGener.Generator.DeclareVar | src/back_end/asm_gener.c:447-451 | the new state has the variable declared at the bumped offset |
| AsmGener.Generator.Destroy | src/back_end/asm_gener.c:100 | the new state has the table destroyed |
| AsmGener.Generator.Node | src/back_end/asm_gener.c:105-136 | the handler completes exactly when the statement's generation does, and ends in its state |
| AsmGener.Generator.Sentinel | src/back_end/asm_gener.c:138-171 | the handler completes exactly when the link's generation does, and ends in its state |
| AsmGener.Generator.Begin | src/back_end/asm_gener.c:143-150 | the start of the handler matches the start of a link |
| AsmGener.Generator.Inner | src/back_end/asm_gener.c:152-170 | the rest of the handler matches the rest of a link |
| AsmGener.Generator.BlockEnd | src/back_end/asm_gener.c:158-170 | the end of the handler matches the end of a link |
| AsmGener.Generator.End | src/back_end/asm_gener.c:158-167 | the block end matches the end of a block |
| AsmGener.Generator.Declaration | src/back_end/asm_gener.c:173-188 | the handler matches a declaration's generation |
| AsmGener.Generator.FuncDec | src/back_end/asm_gener.c:385-412 | the handler matches a function declaration's generation |
| AsmGener.Generator.ParamDec | src/back_end/asm_gener.c:414-429 | the handler matches a parameter's generation |
| AsmGener.Generator.VarDec | src/back_end/asm_gener.c:431-454 | the handler matches the corrected variable declaration's generation |
| AsmGener.Generator.Return | src/back_end/asm_gener.c:209-224 | the handler matches a return's generation |
| AsmGener.Generator.Leave | src/back_end/asm_gener.c:216-221 | the exit loop, the scope exit and RET match the end of a return |
| AsmGener.Generator.Print | src/back_end/asm_gener.c:295-304 | the handler matches a print's generation |
| AsmGener.Generator.Assignment | src/back_end/asm_gener.c:306-322 | the loop matches an assignment's generation |
| AsmGener.Generator.If | src/back_end/asm_gener.c:324-348 | the handler matches an if statement's generation |
| AsmGener.Generator.IfRest | src/back_end/asm_gener.c:330-345 | the rest of the handler matches the part after the condition |
| AsmGener.Generator.IfOpen | src/back_end/asm_gener.c:330-338 | the label number returned is the old if counter, and the state is the opened one |
| AsmGener.Generator.While | src/back_end/asm_gener.c:350-381 | the handler matches a while statement's generation |
| AsmGener.Generator.Loop | src/back_end/asm_gener.c:362-373 | the rest of the handler matches the part after the loop label |
| AsmGener.Generator.Expression | src/back_end/asm_gener.c:226-293 | the handler matches an expression's generation |
| AsmGener.Generator.Arith | src/back_end/asm_gener.c:458-528 | the handler matches an arithmetic operator's generation |
| AsmGener.Generator.Compare | src/back_end/asm_gener.c:532-674 | the handler matches a comparison's generation |
| AsmGener.Generator.Land | src/back_end/asm_gener.c:676-690 | the handler matches a logical and's generation |
| AsmGener.Generator.Lor | src/back_end/asm_gener.c:692-710 | the handler matches a logical or's generation |
| AsmGener.Generator.FuncCall | src/back_end/asm_gener.c:190-207 | the handler matches a call's generation |
| AsmGener.Generator.SetVariable | src/back_end/asm_gener.c:765-793 | the handler matches a store's generation |
| AsmGener.Generator.Access | src/back_end/asm_gener.c:734-793 | the text built hop by hop in the loop, then pushed, matches a variable access's generation |
| AsmGener.AssemblyCodeGeneration | src/back_end/asm_gener.c:60-103 | code generation into a buffer completes exactly when the generation does, and leaves the buffer holding the generated code after its old contents |
| Asm.Code | include/back_end/asm/asm.h:63-79 | each error has its enumerator value, between 0 and 12, and only `ASM_OK` is 0 |
| Asm.FollowOf | src/back_end/asm/asm.c:249-306 | the instructions that read an operand in pass 2 are exactly PUSH, PUSHR, POPR, the jumps, CALL, PUSHM and POPM; MAIN marks the start; an id outside the enumeration hits `assert(0)` |
| Asm.SpacesEnd | src/back_end/asm/asm.c:323-325 | the whitespace loop stops at the first non-blank character, and everything it passed is blank |
| Asm.CommentEnd | src/back_end/asm/asm.c:328 | a `;` comment runs up to the first newline or NUL, which it does not pass |
| Asm.SkipComments | src/back_end/asm/asm.c:327-333 | the comment loop stops at a character that is neither blank nor `;` |
| Asm.SkipSpaces | src/back_end/asm/asm.c:316-336 | `AssemblerSkipSpaces` moves forward to a character that is neither blank nor `;` |
| Asm.SkipSpacesAtWord | src/back_end/asm/asm.c:316-336 | at such a character nothing is skipped |
| Asm.LinesIn | src/back_end/asm/asm.c:323-333 | the newlines passed, which `cur_line` counts, are at most the characters passed |
| Asm.LinesSplit | src/back_end/asm/asm.c:323-333 | the newlines counted over two stretches in a row add up |
| Asm.LinesNone | src/back_end/asm/asm.c:323-333 | a stretch without newlines adds no line |
| Asm.WordAt | src/back_end/asm/asm.c:343-349 | the word read at `i` is the text there, up to the next blank or NUL |
| Asm.WordAtEmpty | src/back_end/asm/asm.c:344-347 | no word is read exactly when the character is blank or NUL |
| Asm.LastValue | src/back_end/asm/asm.c:197-198 | the value of a name is that of its last definition, and there is none only when it was never defined |
| Asm.Insertions | src/back_end/asm/asm.c:142-151 | inserting the rows one by one under NUL-terminated keys gives a valid table holding the last value of each name |
| Asm.InsertionsFind | src/back_end/asm/asm.c:197-198 | looking a name up finds exactly the value of its last definition, and nothing for a name never defined |
| Asm.BindLast | src/back_end/asm/asm.c:197-198 | the map the inserts build holds the last value of each name |
| Asm.InsertionsSnoc | src/back_end/asm/asm.c:142-151 | one more row is one more insert |
| Asm.DigitsEnd | src/back_end/asm/asm.c:429 | the run of digits `atoi` reads ends at the first non-digit |
| Asm.Atoi | src/back_end/asm/asm.c:429 | the number `atoi` returns fits in an `int` |
| Asm.Value | src/back_end/asm/asm.c:354-467 | the value a word stands for in each mode, or the error reported at the word; the failure is never `ASM_OK` or an input error, and no mode aborts |
| Asm.Push | src/back_end/asm/asm.c:338-474 | `AssemblerPush` moves past a non-empty word and pushes its value, or reports the error at `i` |
| Asm.LabelAt | src/back_end/asm/asm.c:187-206 | a label definition moves past the `:` and the name and records it, counting no word; a `:` without a name fails with `ASM_IO_FAILED` after it; anything else reads nothing |
| Asm.FirstStep | src/back_end/asm/asm.c:185-215 | one pass-1 iteration moves forward, or fails with `ASM_IO_FAILED` |
| Asm.FirstFrom | src/back_end/asm/asm.c:184-217 | the rest of pass 1 fails only with `ASM_IO_FAILED`, and every recorded name is a C string |
| Asm.FirstFromStep | src/back_end/asm/asm.c:184-217 | the loop continues from where an iteration stops, or fails where it fails |
| Asm.FirstProgress | src/back_end/asm/asm.c:184-217 | every pass-1 iteration moves past at least one character, so the loop ends |
| Asm.First | src/back_end/asm/asm.c:175-222 | pass 1 records C-string label names |
| Asm.Blank | src/back_end/asm/asm.c:203-205 | the blanked text has the same length, with exactly the label ranges overwritten by spaces |
| Asm.Operand | src/back_end/asm/asm.c:249-306 | the operand part moves forward or reports the error at `i`, and aborts exactly for an id outside the enumeration |
| Asm.OperandAfter | src/back_end/asm/asm.c:247-308 | the rest of a pass-2 iteration moves forward or fails with an error other than `ASM_OK` |
| Asm.SecondStep | src/back_end/asm/asm.c:240-308 | one pass-2 iteration moves past at least one character or fails with an error other than `ASM_OK` |
| Asm.SecondFrom | src/back_end/asm/asm.c:238-309 | the rest of pass 2 fails only with an error other than `ASM_OK` |
| Asm.SecondStepListed | src/back_end/asm/asm.c:303-305 | with a table of enumerators the `default: assert(0)` is never reached |
| Asm.SecondStepParts | src/back_end/asm/asm.c:244-249 | a pass-2 iteration is the mnemonic push, then the operand part |
| Asm.SecondFromEnd | src/back_end/asm/asm.c:238 | at the terminator pass 2 is done |
| Asm.SecondFromStep | src/back_end/asm/asm.c:238-309 | the loop continues from where an iteration stops, or fails where it fails |
| Asm.BlankChars | src/back_end/asm/asm.c:203-205 | blanking keeps the text made of bytes |
| Asm.BindListed | src/back_end/asm/asm.c:34-62 | a name bound from rows of enumerators is bound to an enumerator |
| Asm.InsertionsListed | src/back_end/asm/asm.c:142-151 | a table built from rows of enumerators holds only enumerators |
| Asm.FindListed | src/back_end/asm/asm.c:303-305 | a mnemonic found in such a table never reaches the `default` of pass 2 |
| Asm.TemplatesListed | src/back_end/asm/asm.c:34-62 | every row of `instruction_template_list` is a C string naming an enumerator |
| Asm.BuildTemplates | src/back_end/asm/asm.c:142-151 | the insert loop builds the table of the rows' inserts |
| Asm.InsertionsPrefix | src/back_end/asm/asm.c:142-151 | the rows up to k + 1 are those up to k and one more insert |
| Asm.GatheredDefine | src/back_end/asm/asm.c:197-198 | a label definition keeps the table in step with the recorded labels |
| Asm.Assembler.Init | src/back_end/asm/asm.c:66-77 | a new assembler reads the given buffer, before line 1, with no bytecode and `start_ip` 0 |
| Asm.Assembler.SkipBlanks | src/back_end/asm/asm.c:323-325 | the loop stops where the whitespace ends and counts the newlines it passed |
| Asm.Assembler.SkipComment | src/back_end/asm/asm.c:328 | the loop stops where the comment ends |
| Asm.Assembler.Skip | src/back_end/asm/asm.c:316-336 | `AssemblerSkipSpaces` stops where the blanks and comments end and counts the newlines it passed |
| Asm.Assembler.ReadWord | src/io.c:66-75 | the word copied is the word at `i`, and nothing when there is none |
| Asm.Assembler.WordLength | src/io.c:77-85 | the length is that of the word at `i` |
| Asm.Assembler.PushWord | src/back_end/asm/asm.c:338-474 | on success the value is pushed on the bytecode and the index moves past the word; on failure the error is returned and nothing is pushed |
| Asm.Assembler.WordValue | src/back_end/asm/asm.c:354-467 | the value or error returned is that of the word in the mode |
| Asm.Assembler.BlankRange | src/back_end/asm/asm.c:203-205 | the loop overwrites exactly the range with spaces |
| Asm.Assembler.ReadLabel | src/back_end/asm/asm.c:187-206 | the label part reads, records and blanks what `LabelAt` describes, counting the newlines passed |
| Asm.Assembler.DefineLabel | src/back_end/asm/asm.c:188-205 | a definition inserts the name with the current count and blanks it |
| Asm.Assembler.ReadStep | src/back_end/asm/asm.c:185-215 | one iteration does what `FirstStep` describes |
| Asm.Assembler.ReadAll | src/back_end/asm/asm.c:184-217 | the loop does what `FirstFrom` describes |
| Asm.Assembler.FirstIteration | src/back_end/asm/asm.c:175-222 | pass 1 leaves the labels table of the definitions and the text with their ranges blanked, and resets the line to 1; on failure the line is that of the error |
| Asm.Assembler.OperandWord | src/back_end/asm/asm.c:249-306 | the `switch` pushes the operand or sets `start_ip` as `Operand` describes, and changes nothing on failure |
| Asm.Assembler.OperandPart | src/back_end/asm/asm.c:247-308 | the operand part does what `OperandAfter` describes, counting the newlines passed |
| Asm.Assembler.MnemonicPart | src/back_end/asm/asm.c:240-244 | the mnemonic is pushed as its id, which the `switch` lists |
| Asm.Assembler.WriteStep | src/back_end/asm/asm.c:240-308 | one iteration does what `SecondStep` describes |
| Asm.Assembler.WriteAll | src/back_end/asm/asm.c:238-309 | the loop does what `SecondFrom` describes |
| Asm.Assembler.SecondIteration | src/back_end/asm/asm.c:224-314 | pass 2 leaves the bytecode and `start_ip` that `Second` computes and resets the line to 1; on failure the line is that of the error |
| Asm.Assembler.Translation | src/back_end/asm/asm.c:132-173 | translation builds the template table, runs both passes, and leaves the bytecode and `start_ip` of the translated text, or the first error with its line |
| Asm.Assembler.TranslateWith | src/back_end/asm/asm.c:132-173 | the same for any table of rows that name enumerators |
| AsmScan.WordEnd | src/io.c:77-85 | the word read at `j` ends at the first blank or NUL, and no character before that end is blank or NUL |
| AsmScan.WordEndAt | src/io.c:66-85 | the word `GetWord` copies ends where `SkipWord` stops |
| AsmScan.WordsBefore | src/back_end/asm/asm.c:184-217 | the words a scan meets before a position are at most the characters scanned, and none before the first word's start |
| AsmScan.WordsAfterWord | src/back_end/asm/asm.c:208-215 | up to any position past the first word, the count is that word (when there is one) plus the words after it |
| AsmScan.SpacesEndAgree | src/back_end/asm/asm.c:323-325 | the whitespace loop goes on from the end of the run it meets in another text that agrees on that run |
| AsmScan.CommentEndAgree | src/back_end/asm/asm.c:328 | a comment ends at the same place in two texts that agree on it and on its end |
| AsmScan.SkipCommentsAgree | src/back_end/asm/asm.c:327-333 | the comment loop goes on from where it stops in another text that agrees up to that stop |
| AsmScan.SkipAgree | src/back_end/asm/asm.c:316-336 | `AssemblerSkipSpaces` in a text that agrees with another up to where it stops there goes on from that stop |
| AsmScan.SpacesRun | src/back_end/asm/asm.c:323-325 | a run of spaces is skipped whole |
| AsmScan.WordEndAgree | src/io.c:77-85 | a word ends at the same place in two texts that agree on it and on the character that ends it |
| AsmFacts.RecordedSnoc | src/back_end/asm/asm.c:187-206 | a label defined after the earlier ones keeps the recorded labels in text order, each with the word count at its definition |
| AsmFacts.RecordedCount | src/back_end/asm/asm.c:210-213 | counting more words keeps the record in order |
| AsmFacts.LabelRecorded | src/back_end/asm/asm.c:187-206 | the label part of an iteration keeps the record in order and leaves the blanked ranges behind the cursor |
| AsmFacts.StepAfterLabel | src/back_end/asm/asm.c:208-215 | after the label part, an iteration counts one more word exactly when there is a word |
| AsmFacts.StepRecorded | src/back_end/asm/asm.c:185-215 | one pass-1 iteration keeps the record in order |
| AsmFacts.FromRecorded | src/back_end/asm/asm.c:184-217 | the rest of pass 1 keeps the record in order |
| AsmFacts.CoveredAt | src/back_end/asm/asm.c:203-205 | a position is blanked exactly when it lies in one of the recorded ranges |
| AsmFacts.StepParts | src/back_end/asm/asm.c:185-215 | a successful iteration blanks from the `:` to the end of the name (nothing without a `:`), records that label with the words counted so far, and counts one more word exactly when one follows |
| AsmFacts.StepShape | src/back_end/asm/asm.c:185-215 | an iteration keeps what was recorded and starts any new range at a `:` at or after where it started |
| AsmFacts.FromShape | src/back_end/asm/asm.c:184-217 | the rest of pass 1 keeps what was recorded as a prefix, one range per label, each new range starting at a `:` |
| AsmFacts.BlankedScan | src/back_end/asm/asm.c:185-215 | in the blanked text the scan of an iteration skips the label's range and reads the same word as in the original text |
| AsmFacts.BlankedWords | src/back_end/asm/asm.c:185-215 | in the blanked text an iteration meets no word before its label and exactly the words it counts before its end |
| AsmFacts.StepBlanked | src/back_end/asm/asm.c:203-205 | over one iteration the final blanking changes exactly the label's range, and every range so far ends before the iteration's end |
| AsmFacts.StepCover | src/back_end/asm/asm.c:203-205 | between the start and end of an iteration a position is blanked exactly when it lies in that iteration's label range |
| AsmFacts.StepCounts | src/back_end/asm/asm.c:184-217 | each label's count is the words counted before the iteration plus those the blanked text shows up to its `:`, given that this holds from the iteration's end |
| AsmFacts.FromCounts | src/back_end/asm/asm.c:184-217 | every label the rest of pass 1 records is counted as the words before it plus the words the blanked text shows from the start up to its `:` |
| AsmFacts.PassOneRecords | src/back_end/asm/asm.c:175-222 | pass 1 records each label with the number of words a scan of the blanked text meets before its `:`, each blanked range starting at its `:` and ending right after its name, in text order |
| AsmFacts.LabelReference | src/back_end/asm/asm.c:380-397 | a label operand pushes the count of the name's last definition, cut to an `int`, and a name never defined is `ASM_INVALID_LABEL` |
| AsmFacts.MnemonicId | src/back_end/asm/asm.c:355-378 | a mnemonic pushes the id of its last row in the template list, and a word naming no row is `ASM_INVALID_INSTRUCTION` |
| AsmFacts.MemoryOperand | src/back_end/asm/asm.c:399-426 | a memory operand is accepted exactly when it has five characters, `[` and `]` around a register name, and it pushes that register's id; otherwise `ASM_INVALID_REGISTER` |
| AsmFacts.AtoiRule | src/back_end/asm/asm.c:429 | `atoi` of any word made of an optional sign, digits and a rest not starting with a digit is the digits' value, negated after `-`, cut to an `int`; with neither sign nor digits it is 0 |
| AsmFacts.DigitsEndRun | src/back_end/asm/asm.c:429 | `atoi` reads digits up to the first non-digit or the end |
| AsmFacts.AtoiWords | src/back_end/asm/asm.c:429 | on the six words "0", "00", "-0", "x", "-7" and "12abc", `atoi` gives 0, 0, 0, 0, -7 and 12 |
| AsmFacts.NumberWords | src/back_end/asm/asm.c:428-443 | "0" is 0, "-7" is -7 and "12abc" is 12, while "00", "-0" and "x" are `ASM_INVALID_NUMBER` because they read as 0 but are not the text "0" |
| AsmFacts.MainMarksStart | src/back_end/asm/asm.c:283-287 | MAIN sets `start_ip` to the bytecode size so far and reads no operand |
| AsmFacts.AtoiZeros | src/back_end/asm/asm.c:429 | `atoi` gives 0 for "0", "00" and for a word with no digits |
| AsmFacts.AtoiSigned | src/back_end/asm/asm.c:429 | `atoi` honours a leading minus sign: "-7" gives -7 and "-0" gives 0 |
| AsmFacts.AtoiTrailing | src/back_end/asm/asm.c:429 | `atoi` stops at the first non-digit: "12abc" gives 12 |
| AsmLabels.BareKey | src/back_end/asm/asm.c:197 | the key pass 1 inserts is the name's bytes without the terminator |
| AsmLabels.AsWritten | src/back_end/asm/asm.c:197-198 | the labels table as written, built from bare keys, is a valid table |
| AsmLabels.BucketOfA | HashTable/src/hash_table.c:308-340 | the label `a` falls in bucket 3 of 8 |
| AsmLabels.BucketOfAf | HashTable/src/hash_table.c:308-340 | the label `af` falls in bucket 3 of 8 too |
| AsmLabels.PrefixLabelOverwritten | HashTable/src/hash_table.c:303-306 | as written, in a table that holds just two labels, the first one's name a proper prefix of the second's and both in one bucket of 8, looking up the first label finds the second one's count |
| AsmLabels.OverwriteSingle | HashTable/src/hash_table.c:210-258 | inserting a key that extends the only key of its bucket overwrites that entry and adds none |
| AsmLabels.PrefixLabelsCollide | src/back_end/asm/asm.c:197-198 | the labels `a` and `af` meet the premises of the overwrite |
| AsmLabels.BucketOfCapitalA | HashTable/src/hash_table.c:308-340 | the word `A` falls in bucket 5 of 8 and in bucket 11 of 16 |
| AsmLabels.BucketOfAdd | HashTable/src/hash_table.c:308-340 | the mnemonic `ADD` falls in bucket 5 of 8 and in bucket 11 of 16 |
| AsmLabels.PrefixWordAccepted | src/back_end/asm/asm.c:359-360 | as written, in a table of one row, a word that is a proper prefix of that row's name and shares its bucket of 8 is found with that row's value |
| AsmLabels.SingleRow | HashTable/src/hash_table.c:210-258 | a table of one row holds its entry alone in its bucket |
| AsmLabels.FindSingle | HashTable/src/hash_table.c:191-208 | a key that is a prefix of the only key of its bucket finds that entry |
| AsmLabels.PrefixWordRejected | HashTable/src/hash_table.c:191-208 | with NUL-terminated keys a different word is never found |
| AsmLabels.MnemonicPrefixCollides | src/back_end/asm/asm.c:34-62 | `A` and `ADD` are C strings whose bare keys share a bucket among 8 and among 16 |
| AsmLabels.AsWrittenOne | HashTable/src/hash_table.c:210-258 | the as-written table of one row is a single insert into the empty table |
| AsmFile.Pow256 | src/back_end/asm/asm.c:107-117 | the number of values that fit in n bytes is positive |
| AsmFile.LittleEndian | src/back_end/asm/asm.c:107-117 | a value stored in n bytes takes exactly n bytes |
| AsmFile.FromLittleEndian | src/back_end/asm/asm.c:107-117 | the value read from n bytes is below 256 to the n |
| AsmFile.LittleEndianRoundTrip | src/back_end/asm/asm.c:107-117 | reading back the bytes of a value that fits gives the value |
| AsmFile.Signed32 | src/back_end/asm/asm.c:117 | the `int` stored as a 32-bit pattern is in range and has that pattern |
| AsmFile.Payload | src/back_end/asm/asm.c:117 | the elements take four bytes each |
| AsmFile.FileImage | src/back_end/asm/asm.c:96-130 | the file is two 8-byte `size_t`s then four bytes per element |
| AsmFile.ReadInts | src/back_end/asm/asm.c:117 | reading the elements back uses all the bytes, four per element |
| AsmFile.ReadImage | src/back_end/asm/asm.c:107-117 | a reader accepts only a file whose length matches the count in its header |
| AsmFile.PayloadRoundTrip | src/back_end/asm/asm.c:117 | reading the elements back gives the elements written, when each fits in an `int` |
| AsmFile.FileImageRoundTrip | src/back_end/asm/asm.c:96-130 | reading the file back gives the `start_ip` and bytecode written |
| AsmDump.ErrorTableDistinct | src/back_end/asm/asm_dump.c:44-59 | no two rows of `error_table` have the same code and category |
| AsmDump.AssemblerErrorMessage | src/back_end/asm/asm_dump.c:224-259 | the loop returns the name of the first row with the code and category, or NULL |
| AsmDump.LookupRow | src/back_end/asm/asm_dump.c:253-257 | with distinct keys, each row's name is found by its own key |
| AsmDump.AsmErrorNames | src/back_end/asm/asm_dump.c:44-51 | an assembler error has a name exactly when it is one of the seven in the table |
| AsmDump.UnnamedAsm | src/back_end/asm/asm_dump.c:44-51 | the assembler codes outside 2, 3 and 8 to 12 come out as NULL |
| AsmDump.LineEnd | src/back_end/asm/asm_dump.c:277-280 | a line ends at the first newline or NUL |
| AsmDump.StrEnd | src/back_end/asm/asm_dump.c:268 | the C string ends at the buffer's first NUL |
| AsmDump.LineStart | src/back_end/asm/asm_dump.c:264-275 | line n + 1 starts right after the n-th newline, before the string's end |
| AsmDump.FileLine | src/back_end/asm/asm_dump.c:261-283 | the excerpt holds no newline or NUL |
| AsmDump.LineStartExists | src/back_end/asm/asm_dump.c:264-275 | line n + 1 exists exactly when the string has at least n newlines |
| AsmDump.FileLineInside | src/back_end/asm/asm_dump.c:261-283 | for an existing line the excerpt is the text of that line, from its start up to its newline or NUL |
| AsmDump.FileLineBeyond | src/back_end/asm/asm_dump.c:267-270 | line 0, or a line past the end, gives the empty excerpt, because the walk stops at the NUL |
| AsmDump.LineStartGone | src/back_end/asm/asm_dump.c:264-275 | once a line is missing every later one is |
| AsmDump.SeekLine | src/back_end/asm/asm_dump.c:264-275 | the first loop stops where the excerpt starts |
| AsmDump.CopyLine | src/back_end/asm/asm_dump.c:277-282 | the second loop and `strndup` copy up to the next newline or NUL |
| AsmDump.GetFileLine | src/back_end/asm/asm_dump.c:261-283 | the excerpt of the assembler's current line |
| AsmDump.RemarkFor | src/back_end/asm/asm_dump.c:138-153 | only assembler errors 8 to 12 get a remark under the excerpt |
| AsmDump.AssemblerDump | src/back_end/asm/asm_dump.c:63-222 | a report exists exactly for the letters a, b, h, i and s; it holds the code, the name from the category's table or the stack's, the current line, its excerpt and the remark |
| AsmDump.RemarkedNamed | src/back_end/asm/asm_dump.c:44-51 | every assembler error that gets a remark also has a name |
| GenerFacts.InnerAsWritten | src/back_end/asm_gener.c:152-156 | as written, a link whose left child is NULL always stops the walk |
| GenerFacts.ParsedBlockLastLink | src/front_end/syntax.c:283-293 | the link after the last statement of every parsed block is a SENTINEL with NULL on both sides |
| GenerFacts.LastLinkAsWrittenAborts | src/back_end/asm_gener.c:105-107 | as written, the generator stops at the last link of every parsed block, whatever the state |
| GenerFacts.LastLinkCloses | src/back_end/asm_gener.c:158-167 | with the NULL skipped, the last link only closes the block, and stops exactly when there is no current scope |
| IndexList.Values | List/list.c:236-241 | one entry per slot of the order, each the value stored in that slot: what walking the list from `ListFront` with `ListNext` reads |
| IndexList.InsertAfterNodes | clibs/List/list_private.c:11-30 | the slot writes of `RealInsertAfter` leave the array's length unchanged |
| IndexList.InsertAfterShape | clibs/List/list_private.c:17-20 | taking the head of the free chain and placing it in the live order keeps every real slot below `size` in exactly one of the two orders |
| IndexList.InsertAfterChain | clibs/List/list_private.c:11-30 | after the slot writes of `RealInsertAfter` the array is a well-linked list with the free head spliced into the live order at the insert point and the free chain one shorter |
| IndexList.InsertAfterSlots | clibs/List/list_private.c:11-18 | on a well-linked list the slots `RealInsertAfter` touches lie inside the array and the free head differs from both neighbours it is linked between |
| IndexList.InsertEffect | clibs/List/list_private.c:8-32 | on a list whose free slots follow the live ones, inserting after the k-th element uses the first slot after the live ones, leaves a well-linked list with that slot at place k, the free chain one shorter and `size` one larger |
| IndexList.DeleteNodes | clibs/List/list_private.c:44-61 | the slot writes of `RealDeleteAt` leave the array's length unchanged |
| IndexList.DeleteShape | clibs/List/list_private.c:55-58 | moving a live slot to the head of the free chain keeps every real slot in exactly one of the two orders |
| IndexList.DeleteValues | clibs/List/list_private.c:54-61 | after the unlink the remaining elements keep their values in their order |
| IndexList.DeleteChain | clibs/List/list_private.c:44-61 | after the slot writes of `RealDeleteAt` the array is a well-linked list with the slot removed from the live order and pushed on the free chain |
| IndexList.DeleteSlots | clibs/List/list_private.c:44-51 | on a well-linked list a live slot's neighbours lie inside the array and differ from it |
| IndexList.DeleteEffect | clibs/List/list_private.c:41-63 | deleting the j-th element of a list whose free slots follow the live ones leaves a well-linked list without that element, its slot at the head of the free chain |
| IndexList.CollectStep | List/list.c:236-241 | one step of the copy-out walk: the slot it reads is not yet freed, its `next` is the following element (0 after the last), and the copied prefix grows by that slot's value |
| IndexList.ChainWalkable | List/list.c:236 | the walk from `ListFront` along `next` over a well-linked list visits the live slots in order and stops at the fake slot |
| IndexList.ReallocUpNodes | List/list.c:49-72 | `ListReallocUp` doubles the slot array |
| IndexList.ReallocUpChain | List/list.c:58-72 | on a list whose only free slot is `f`, doubling keeps the live order and values and chains `f` then the new slots as free |
| IndexList.ReallocUpFree | List/list.c:61-72 | the new slots `capacity .. 2*capacity - 1` are UNINITIALIZED and chained in index order after `f`, the last one closing on 0 |
| IndexList.ReallocUpShape | List/list.c:58-68 | after doubling every real slot is in exactly one of the live order and the extended free chain |
| IndexList.Linearized | List/list.c:243-262 | the slots linearizing is meant to leave: an array of the given capacity |
| IndexList.LinearizedCut | List/list.c:91-93 | cutting a linearized array to its capacity and closing the last slot on 0 keeps it linearized |
| IndexList.LinearizedLive | List/list.c:243-253 | in a linearized array value k sits in slot k + 1 and the live slots are linked in index order with the fake slot at both ends |
| IndexList.LinearizedFree | List/list.c:255-262 | in a linearized array the slots after the live ones are UNINITIALIZED, NULL, and chained in index order ending at 0 |
| IndexList.LinearizedChain | List/list.c:243-262 | a linearized array is a well-linked list whose live order is `1 .. n` holding exactly the given values and whose free chain is `n + 1 .. capacity - 1` |
| IndexList.RangeShape | List/list.c:255 | slots `1 .. n - 1` and `n .. capacity - 1` share out the real slots, each once |
| IndexList.TruncateEmptyChain | List/list.c:91-93 | cutting an empty list's array and closing its last slot on 0 leaves an empty well-linked list with every slot free in index order |
| IndexList.ShrinkEffect | List/list.c:80-93 | after linearizing and cutting, the list is well-linked with live order `1 .. size - 1`, free order `size .. capacity - 1` and the same values in the same order |
| IndexList.LinearizedAsWritten | List/list.c:246-251 | the array as written: value k handed to `ListSet` at position k + 1, so it lands in slot k + 2 |
| IndexList.LinearizedAsWrittenShifts | List/list.c:248 | as written, linearizing keeps the links but shifts the values: the list reads NULL followed by all values but the last |
| IndexList.LinearizedAsWrittenLosesValue | List/list.c:248 | a one-element list reads [NULL] after the linearization as written, and [x] after the corrected one |
| IndexList.EmptyChain | List/list.c:28-38 | the array `ListInit` builds is an empty well-linked list with slots 1..7 free in index order |
| IndexList.UninitializedIffFree | List/list.c:192 | while the capacity is at most UNINITIALIZED, a slot's `prev` is UNINITIALIZED exactly when it is free, and free exactly when it is not live: the test `ListInsert` and `ListErase` rely on |
| IndexList.LiveSlot | List/list.c:196 | a real slot whose `prev` is not UNINITIALIZED is a live slot, and its `prev` is the previous element's slot |
| IndexList.List.Init | List/list.c:13-41 | an empty list of capacity 8 with the free chain starting at slot 1 |
| IndexList.List.Get | List/list.c:123-128 | the value of a live slot is the element it holds; the fake slot holds NULL |
| IndexList.List.Next | List/list.c:130-135 | `next` of the fake slot is the first element's slot, of a live slot the following element's slot (0 after the last), of a free slot the following free slot |
| IndexList.List.Prev | List/list.c:137-142 | `prev` of the fake slot is the last element's slot, of a live slot the previous element's slot (0 before the first), of a free slot UNINITIALIZED |
| IndexList.List.Front | List/list.c:144-148 | the first element's slot, 0 for an empty list |
| IndexList.List.End | List/list.c:150-154 | the last element's slot, 0 for an empty list |
| IndexList.List.Size | List/list.c:156-160 | the number of elements, one less than `arr.size` |
| IndexList.List.Set | List/list.c:162-175 | LIST_INDEX_OUT_OF_RANGE exactly when `position + 1 >= capacity`; otherwise slot `position + 1` gets the value and the order is kept |
| IndexList.List.ReallocUp | List/list.c:43-75 | with one free slot left, the capacity doubles, the elements and their order are kept and the free slots again follow the live ones |
| IndexList.List.Grow | List/list.c:49-72 | the new array is the doubled slot array |
| IndexList.List.RealInsertAfter | clibs/List/list_private.c:8-39 | inserting after the k-th element's predecessor puts the value at place k, grows `size` by one and reallocates up when one free slot is left |
| IndexList.List.Attach | clibs/List/list_private.c:11-32 | the insertion before the capacity test: the value at place k in a list that is well-linked, with the free slots still following the live ones |
| IndexList.List.Link | clibs/List/list_private.c:11-30 | the slot writes on the array are those of the insertion |
| IndexList.List.PushBack | List/list.c:177-181 | the value is appended after the last element |
| IndexList.List.Insert | List/list.c:183-197 | LIST_INDEX_OUT_OF_RANGE when `position + 1 >= capacity`, LIST_INSERT_BEFORE_UNINITIALIZED when that slot's `prev` is UNINITIALIZED (when it is not live), the list unchanged on an error; otherwise the value is inserted before the element in slot `position + 1` |
| IndexList.List.Erase | List/list.c:205-219 | LIST_INDEX_OUT_OF_RANGE and LIST_ERASE_UNINITIALIZED under the same tests as insert, the list unchanged on an error; otherwise the element in slot `position + 1` is removed and the list is linearized to capacity `size + 2` |
| IndexList.List.Pop | List/list.c:199-203 | the last element is removed and the list linearized |
| IndexList.List.RealDeleteAt | clibs/List/list_private.c:41-68 | removes the j-th element, shrinks `size` by one and reallocates down to `size + 2` slots, linearized |
| IndexList.List.Detach | clibs/List/list_private.c:44-63 | the unlink before the reallocation: the j-th element removed and its slot freed |
| IndexList.List.Unlink | clibs/List/list_private.c:44-61 | the slot writes on the array are those of the deletion |
| IndexList.List.ReallocDown | List/list.c:77-96 | LIST_WRONG_CAPACITY and nothing changed when the requested capacity is not smaller; otherwise capacity `size + 2` for NONE_CAPACITY or the requested one, the elements and their order kept, live slots `1 .. size - 1` |
| IndexList.List.Shrink | List/list.c:89-93 | linearize then cut: the elements kept in order in slots `1 .. size - 1` |
| IndexList.List.Truncate | List/list.c:91-93 | the new array is the first `capacity` slots with the last one's `next` set to 0 |
| IndexList.List.Linearization | List/list.c:221-267 | LIST_OK; an empty list is unchanged; otherwise the first `capacity` slots are the linearized array of the same values in the same order, with the free chain starting at `size` |
| IndexList.List.Relink | List/list.c:243-262 | the slot writes of the second half of linearizing build the linearized array |
| IndexList.List.Collect | List/list.c:235-241 | the copy-out walk gathers the values in list order |

## Left out

- `BufferGet` and `GetFileSize` (src/io.c:23-64) and the `fread` in `BufferRead` are file input. `Buffer.Buffer.Read` takes the bytes the file would give as a parameter.
- The `fopen` and `fwrite` failures of `AssemblerWriteFile` are file output. `AsmFile.FileImage` gives the bytes written, not the I/O.
- `DotVizualizeTree` and `DotInitNodes` (src/ast_dump.c:77-214) are left out: they write Graphviz files and call `system()`.
- `StackDump`, `fillPoison`, `PrintStack`, `PrintBuffer`, the `ASM_DEBUG` part of `AssemblerDump` and the `fprintf(stderr, …)` diagnostics are left out. They are debug output only; `AsmDump.AssemblerDump` models only the value it returns.
- The "already declared" message of `SymbolTableInsert` is left out. It is one such diagnostic; the table is unchanged, which is modelled.
- Freeing memory is left out: `AssemblerDestroy`, `BufferDestroy`, `StackDestroy`, `HashTableDestroy`, `ListDestroy`, the node copies freed by the list, and the symbol table's maps. `Ast.Ast.Destroy` and `SymbolTable.SymTable.Destroy` model what is released and in which order, not the `free` calls.
- Allocation failures of `calloc`/`realloc` are left out: allocation is taken to succeed. This covers the hash map, the symbol table, the list, the tree, the generator's buffer and the assembler.
- `Stack.Stack.Realloc`: the only failure reported is a request for zero bytes. A `realloc` that returns NULL for a non-zero size is not modelled.
- `Buffer.Buffer.Realloc`: requires a non-zero resulting capacity. Doubling a zero capacity makes the source store one slot before the block.
- `Buffer.Buffer.Realloc`: states that the bytes `realloc` adds are NUL. The source leaves them unspecified; `Buffer.Resized` fills them with NUL as a stand-in. What callers rely on is stated separately: the kept prefix and the NUL in the last slot.
- `IndexList.List.ReallocDown`: requires a requested capacity that is NONE_CAPACITY, not smaller than the current one, or at least `size + 2`. A smaller explicit capacity would make the source cut live slots. No caller in the repository asks for one: `RealDeleteAt` always passes NONE_CAPACITY.
- The 256-byte `MAX_LEN` buffers of the code generator (include/back_end/asm_instructions.h:6) are not modelled. The model emits the whole text where the source would:
  - truncate an over-long `snprintf` (src/back_end/asm_gener.c:200-204, 392-396);
  - then copy the untruncated length;
  - overrun `temp_buffer` in the `strcat` loop of a deeply nested variable access (src/back_end/asm_gener.c:745-761, 775-791).
  This affects `AsmGener.AccessGen`, `AsmGener.SetGen`, `AsmGener.CallGen` and `AsmGener.FuncDecGen`.
- The code generator holds the symbol table as a value (`SymbolTable.TableState`), not as a pointer to a `SymTable` object. The `SymbolTable.SymTable` class is proved against the same `After*` functions the generator uses, so sharing is not modelled.
- The richer symbol-table interface the generator is written against is not in the repository's symbol-table source. It consists of a six-argument `SymbolTableInsert` and the frame offsets `scope_ram_offset`/`symbol_ram_offset`. It is modelled as the generator uses it: a per-scope counter bumped before each declaration, and an offset stored with each symbol.
- The templates `if_statement`, `endif`, `begif`, `begif_jmp`, `get_rcx_by_offset` and `set_rcx_by_offset` are not defined in include/back_end/asm_instructions.h. They are parameters (`AsmGener.Templates`) that may contain `#`.
- `scope_level` and the generator's counters are unbounded, so no `size_t` overflow is modelled. The assembler's line counter is unbounded too.
- DOUBLE constants keep their text: `strtod`'s floating-point value is not modelled.
- The hash map's load-factor tests compare `double`s. They are modelled as `4 * buckets_size >= 3 * capacity` and `4 * buckets_size <= capacity`, which agree exactly for every capacity up to the map's maximum of 100000.
- The commented-out MurmurHash2 and `ListGroupNodes` are not compiled (`#ifdef STACK_H`, List/list.c:269-333), so they are left out. The same holds for src/middle_end/ast_optimization.c, whose body is commented out.
- The driver (main.c, front_end.c, back_end.c) only sequences the stages and releases resources, so it is left out.
- A character no lexer rule accepts makes the source loop forever. `Lexer.LexicalAnalysis` reports this as None instead of diverging.
- `Lexer.LexicalAnalysis`: takes the text as a sequence that may hold a NUL character. The C loop (src/front_end/lexer.c:88) stops at the first NUL, while the model reports None at a NUL inside the sequence. Both agree on every text without NUL, which is every C string the callers pass.
- `AsmFacts.AtoiWords`: covers only its six words. The general rule is `AsmFacts.AtoiRule`.
- `AsmLabels.PrefixLabelOverwritten`: shown only for a table that holds just the two labels, at its initial capacity of 8. A table with other labels in the same bucket, or one grown past 8 buckets, is not covered.
- `AsmLabels.PrefixWordAccepted`: shown only for a table of one row at capacity 8. It is not proved for the 27-row template table that `Translation` builds.
- `AsmLabels.MnemonicPrefixCollides`: proves only that `A` and `ADD` share a bucket among 8 and among 16. Two things are not proved: that 16 is the capacity of the 27-row template table, and that looking up `A` in that table finds ADD. ADD is the only template name starting with `A`, so no other row's key can match it.
- `Asm.Insertions`: keys the labels table with the terminator, the corrected behaviour of the first Findings row. A label whose name extends an earlier label's name therefore never overwrites it. `Asm.Value`, `Asm.Push`, `Asm.Assembler.FirstIteration`, `Asm.Assembler.SecondIteration` and `AsmFacts.LabelReference` are built on this.
- `Asm.BuildTemplates`: keys the template table with the terminator, the corrected behaviour of the second Findings row. A proper prefix of a mnemonic is therefore rejected. `Asm.Value`, `Asm.Push`, `Asm.Assembler.Translation`, `Asm.Assembler.SecondIteration`, `AsmFacts.MnemonicId` and `AsmFacts.MemoryOperand` are built on this.
- `IndexList.List.Linearization`: stores value k in slot k + 1, the corrected behaviour of the third Findings row. `IndexList.List.Erase`, `IndexList.List.Pop`, `IndexList.List.RealDeleteAt` and `IndexList.List.ReallocDown` are built on this.
- `AsmGener.VarDecGen`: takes the name of a declaration without initialiser from the declaration's own node (`AsmGener.DeclaredNode`), the corrected behaviour of the fourth Findings row. `AsmGener.NodeGen`, `AsmGener.InnerGen`, `AsmGener.LeftGen`, `AsmGener.SentinelGen` and `AsmGener.AssemblyCodeGeneration` are built on this.
- `AsmGener.LeftGen`: skips the NULL left child of a block's last link, so that link only ends its block. This is the corrected behaviour of the fifth Findings row. `AsmGener.InnerGen`, `AsmGener.SentinelGen`, `AsmGener.NodeGen` and `AsmGener.AssemblyCodeGeneration` are built on this.
- `AsmFile.FileImageRoundTrip`: requires every bytecode element to fit in an `int`, and `start_ip` and the element count to fit in a `size_t`. The assembler only pushes values that fit.

## Findings

Nothing here was executed. Each row was derived from the code and the proofs.

| source | as written | input that shows it | evidently intended | confidence | as-written member | corrected member |
|---|---|---|---|---|---|---|
| src/back_end/asm/asm.c:197-198 | labels are inserted with `strlen(word)` bytes, and `KeyCmp` (HashTable/src/hash_table.c:303-306) compares only the shorter length, so a label extending an earlier label in the same bucket overwrites the earlier one's count | `:a` then `:af`, both in bucket 3 of 8; a later `JMP a` jumps to `af` | each label keeps its own count (the model is corrected to this) | high (not executed) | AsmLabels.PrefixLabelOverwritten | Asm.InsertionsFind |
| src/back_end/asm/asm.c:359-360 | words are looked up with `word_len` bytes in a table keyed the same way (asm.c:143-144), so a word that is a proper prefix of a mnemonic in its bucket is accepted as that mnemonic | the word `A` shares bucket 5 of 8 and bucket 11 of 16 with `ADD`, the only template name starting with `A`, so in a template table of 16 buckets it would assemble as ADD's id | an unknown word stops pass 2 with ASM_INVALID_INSTRUCTION (the model is corrected to this) | medium (not executed) | AsmLabels.PrefixWordAccepted | AsmLabels.PrefixWordRejected |
| List/list.c:248 | `ListSet(list, k + 1, …)` stores value k in slot k + 2 (List/list.c:171), one past the slot the links give it; the free-slot loop then resets the last one to NULL | any non-empty list that is erased from or popped: a list [x] reads [NULL] after linearizing | value k in slot k + 1, the list's values kept in order (the model is corrected to this) | high (not executed) | IndexList.LinearizedAsWrittenLosesValue | IndexList.List.Linearization |
| src/back_end/asm_gener.c:449-451 | `VarDecHandler` reads the name from `right_node->left`, which is NULL for a declaration without initialiser (src/front_end/syntax.c:370-371) | `int x;` | the bare declaration declares `x` (the model is corrected to this) | high (not executed) | AsmGener.BareDeclAsWrittenAborts | AsmGener.BareDeclDeclares |
| src/back_end/asm_gener.c:152-156 | `SentinelHandler` passes the left child to `AST_NodeHandler`, which asserts it is non-NULL (asm_gener.c:106-107), but every parsed block ends in a SENTINEL without a left child (src/front_end/syntax.c:283-293) | any block, e.g. `if (1) { }` | the closing SENTINEL only leaves the scope (the model is corrected to this) | high (not executed) | GenerFacts.LastLinkAsWrittenAborts | GenerFacts.LastLinkCloses |
