# hyper: a Dafny model of its language front end and runtime helpers

hyper is a Go toolchain for a small domain-specific language. This project models the parts of it that are sequential and self-contained, and proves properties of them:

- the token set: its classes, operator precedence, compound-assignment effects and keyword lookup;
- the lexer, which turns a character sequence into tokens;
- the parser's token buffer, a cursor over the tokens the lexer has produced so far;
- the expression parsers for type expressions, selectors, index expressions, call arguments and assignments;
- the re-association of binary expressions by precedence;
- the database helpers:
  - flattening of nested field maps into dotted keys, and rebuilding them;
  - normalisation of model fields;
  - the scalar, enum, list and object validators;
  - the filter validators;
  - the write and query argument checks;
- the enumeration rules of the interpreter's `Array` class;
- the symbol table's scopes, and the resolution of selectors and literals;
- the dotted domains through which a context imports other contexts;
- the runtime logger's level filter;
- the `Duration` class of the time package;
- the `MimeType` constructor;
- the `QueryOptions` class of the state interface.

Every operation is a pure function over immutable values. Where Go mutates a map, a slice or a global, the model returns the new value. Go's `panic` is a distinct result: `None`, `Err`, or `Panics`. `int64` arithmetic wraps explicitly where it can overflow.

Seven places were found where the code does not do what its authors evidently meant. Each is modelled twice, as written and as intended (see "## Findings"). The rest of the model builds on the intended versions.

Files, one Dafny module each:

| file | module | source |
|---|---|---|
| wrappers.dfy | Wrappers | `Option`, `Result` and `Outcome` |
| tokens.dfy | Tokens | src/hyper/tokens/token.go |
| lexer.dfy | Lexer | internal/parser/lexer.go |
| token_buffer.dfy | TokenBuffer | src/hyper/parser/parser.go |
| expressions.dfy | Expressions | language/nodes/expression.go, internal/ast/terminals.go |
| binary_order.dfy | BinaryOrder | language/nodes/expression.go |
| field_maps.dfy | FieldMaps | src/resources/database/map.go |
| fields.dfy | Fields | src/resources/database/field.go |
| models.dfy | Models | src/resources/database/interface.go |
| filters.dfy | Filters | src/resources/database/filter.go, interface.go |
| arrays.dfy | Arrays | internal/symbols/objects.go |
| symbols.dfy | Symbols | src/hyper/symbols/symbols.go |
| domains.dfy | Domains | internal/domain/context.go |
| log.dfy | Log | src/runtime/log/log.go |
| durations.dfy | Durations | internal/stdlib/time.go |
| mime.dfy | Mime | src/hyper/stdlib/mime.go |
| query_options.dfy | QueryOptions | src/hyper/interfaces/state/options.go |

## Model

| member | source | states |
|---|---|---|
| Tokens.Precedence | src/hyper/tokens/token.go:185-201 | Exactly the binary operators rank above the lowest precedence, and every rank lies below the unary one. Rank 3 belongs to exactly the six comparisons. |
| Tokens.PrecedenceOrder | src/hyper/tokens/token.go:185-201 | `||` < `&&` < comparisons < `+`,`-` < `*`,`/`,`%` < `**`, and no token binds tighter than `**`. |
| Tokens.GetEffectOperator | src/hyper/tokens/token.go:239-256 | A compound assignment maps to the arithmetic operator its spelling starts with. `++` and `--` map to the operator spelled by half of them. `=` and every non-assignment token map to the zero token. |
| Tokens.TokenClasses | src/hyper/tokens/token.go:17-52 | Lists the members of each class. Arithmetic is exactly `+ - * ** / %`. The comparable operators run from `&&` to `>=`, `!` included. The assignment operators and the keywords are listed in full. |
| Tokens.OperatorRangesDisjoint | src/hyper/tokens/token.go:17-52 | The arithmetic, comparable, assignment and keyword classes never share a token. |
| Tokens.Lookup | src/hyper/tokens/token.go:207-221 | An identifier classifies as `IDENT` or as a keyword spelled exactly like it. |
| Tokens.LookupKeyword | src/hyper/tokens/token.go:207-221 | Each keyword's spelling looks up to that keyword, so the keyword map loses no entry. |
| Tokens.LookupIdent | src/hyper/tokens/token.go:216-221 | `IDENT` comes back exactly for strings that spell no keyword. |
| Tokens.KeywordSpellingsDistinct | src/hyper/tokens/token.go:99-178 | No two keywords share a spelling. |
| Lexer.Digits | internal/parser/lexer.go:55-70 | Reads the whole run of digits and underscores, and stops at the first rune that is neither. The literal is that run with the underscores dropped, so it holds only digits. |
| Lexer.DigitsRun | internal/parser/lexer.go:55-70 | A digit run followed by a rune that cannot continue it is read whole. |
| Lexer.LexIdent | internal/parser/lexer.go:72-83 | Returns the maximal run of letters, digits and underscores, and stops at a rune outside that class or at the end of input. |
| Lexer.LexIdentAsWritten | internal/parser/lexer.go:72-83 | As written, the read panics when an identifier runs to the end of input. Otherwise it returns the same word as `LexIdent`. |
| Lexer.IdentAtEndFinding | internal/parser/lexer.go:33-40 | A word that ends the input, such as `abc`: the code as written panics, while the corrected reader returns the whole word. |
| Lexer.LexNumber | internal/parser/lexer.go:84-99 | The result is always `INT` or `FLOAT`, and its literal is the text read without underscores. An `INT` is all digits and is not followed by `.`. A `FLOAT` is digits, one `.`, digits. The scan stops at a rune that cannot continue the number. |
| Lexer.LexFloat | internal/parser/lexer.go:84-99 | `d.d`, and `.d` with no integer part, lex as one `FLOAT` with that literal. A second `.` is left unread. |
| Lexer.LexEscaped | internal/parser/lexer.go:100-122 | `\n`, `\t` and `\r` decode to control runes, and every other escaped rune stands for itself. `\x` keeps its digits undecoded. |
| Lexer.StringBody | internal/parser/lexer.go:123-143 | When a string body ends, it ends just after a closing quote of the opening kind. |
| Lexer.LexString | internal/parser/lexer.go:123-143 | A rune other than a quote starts no string and reads nothing. A string spans at least its two quotes and closes with the quote it opened with. |
| Lexer.StringRoundTrip | internal/parser/lexer.go:100-143 | Any text escaped by a writer and put between two equal quotes lexes back to that exact text, whatever follows. The escapes `\n \t \r \\ \' \"` are decoded. |
| Lexer.StringBodyRoundTrip | internal/parser/lexer.go:127-142 | An escaped text followed by the closing quote reads back as the text, with the read head just past the quote. |
| Lexer.StringBodyAsWritten | internal/parser/lexer.go:123-143 | As written, the literal is the raw text between the quotes: no escape is ever decoded, and it ends at the first matching quote, escaped or not. |
| Lexer.StringEscapeFinding | internal/parser/lexer.go:130-138 | The input `"a\"\\b"`: as written the literal stops at the escaped quote and keeps the backslash (`a\`). The corrected body reads `a"\b`. |
| Lexer.LexComment | internal/parser/lexer.go:144-194 | A comment consumes at least the rune after the `/`, and never reads past the input. |
| Lexer.BlockComment | internal/parser/lexer.go:172-190 | A block comment's literal never contains `*`. |
| Lexer.LineCommentToEnd | internal/parser/lexer.go:148-171 | A line comment with no newline and no NUL reads to the end of input, and its literal is the text itself. |
| Lexer.BlockCommentClosed | internal/parser/lexer.go:172-190 | A block comment whose text has no `*` and no NUL reads back as that text, with the read head after the closing `*/`. |
| Lexer.LineCommentToNewline | internal/parser/lexer.go:149-171 | A line comment reads its text up to the newline and then continues with whatever follows the newline. |
| Lexer.ContinuationSkipsBlanks | internal/parser/lexer.go:153-164 | Blanks at the start of the next line are skipped, so the comment continues or ends as if they were absent. |
| Lexer.LineCommentsJoined | internal/parser/lexer.go:148-167 | Consecutive `//` lines read as one literal, with the lines joined by an escaped `\n`, and the whole run is read. |
| Lexer.ThreeLineComments | internal/parser/lexer_test.go:168-177 | The run `/abc`, `//def`, `//ghi` on three lines reads as `abc\ndef\nghi`, as the lexer test expects. |
| Lexer.LexOperator | internal/parser/lexer.go:229-306 | The result is always a punctuation token or `ILLEGAL`. `ILLEGAL` reads exactly one rune, and `...` needs two dots before its third rune. |
| Lexer.LexOperatorSpelling | internal/parser/lexer.go:243-304 | The text an operator reads is exactly the spelling of the token it returns, for every token except `ILLEGAL` and `...`. |
| Lexer.DupeSpelling | internal/parser/lexer.go:243-251 | `+ - *` and their doubled and `=` forms read exactly their spelling. |
| Lexer.AssignSpelling | internal/parser/lexer.go:252-288 | `/ % :` and their `=` forms read exactly their spelling. |
| Lexer.ComparisonSpelling | internal/parser/lexer.go:262-273 | `= < > !` and their `=` forms read exactly their spelling. |
| Lexer.PairSpelling | internal/parser/lexer.go:229-242 | `&&`, `||`, `.`, `...` read exactly their spelling, whenever they are not `ILLEGAL`. |
| Lexer.DelimiterSpelling | internal/parser/lexer.go:282-304 | The one-rune delimiters read exactly their spelling. |
| Lexer.AssignSwitch | internal/parser/lexer.go:313-319 | After the first rune, a following `=` is read and nothing else is. The token is `tok1` exactly when that `=` was read, and otherwise `tok0`. |
| Lexer.AssignDupeSingleSwitch | internal/parser/lexer.go:321-332 | After the first rune, a following `=` is read, or else a following `ch2`, and nothing more. The token is `tok1` for `=`, `tok2` for `ch2` and `tok0` when nothing was read. |
| Lexer.AssignDupeSwitch | internal/parser/lexer.go:334-348 | After the first rune, a following `=` is read, or else a following `ch2` together with an `=` after it when there is one. The token is `tok1` for `=`, `tok3` for `ch2` `=`, `tok2` for a lone `ch2` and `tok0` when nothing was read. |
| Lexer.LexPunctuation | internal/parser/lexer.go:243-304 | Followed by a space or by nothing, every punctuation token's spelling lexes to that token. This is maximal munch: `+=` is `ADD_ASSIGN`, `++` is `INC`, `**=` is `PWR_ASSIGN`, `:=` is `DEFINE`. |
| Lexer.LexIllegal | internal/parser/lexer.go:305-306 | A rune that starts no token lexes as `ILLEGAL`, with that rune as its literal. |
| Lexer.LexLoneConjunction | internal/parser/lexer.go:229-242 | A single `&` or `|` lexes as `ILLEGAL` with that rune as its literal. |
| Lexer.LexSkipsBlanks | internal/parser/lexer.go:197-208 | Lexing from before blanks (every space but newline) is lexing from after them, with the column advanced by one per blank. |
| Lexer.LexNewline | internal/parser/lexer.go:223-225 | A newline lexes as `NEWLINE` with literal `\n`, and moves to column 0 of the next line. |
| Lexer.LexIdentifier | internal/parser/lexer.go:214-217 | A word starting with a letter lexes as the keyword it spells or else as `IDENT`, with the word as literal. |
| Lexer.LexInteger | internal/parser/lexer.go:218-220 | A digit run not followed by a digit, `_` or `.` lexes as `INT` with those digits. |
| Lexer.LexStringLiteral | internal/parser/lexer.go:226-228 | A quoted, escaped literal lexes as `STRING` holding the original text. The column advances one per rune read. |
| Lexer.Lex | internal/parser/lexer.go:196-311 | `EOF` comes back exactly when only blanks remain. Every other token reads at least one rune, and the head never leaves the input. |
| Lexer.LexAt | internal/parser/lexer.go:210-311 | Once the blanks are skipped, `EOF` comes back exactly at the end of input. Any other token reads at least one rune and stays within the input. |
| Lexer.Tokenize | internal/parser/lexer.go:196-311 | The whole token sequence ends with exactly one `EOF`, its last element. |
| Lexer.Span | internal/parser/lexer.go:72-83 | The run it returns satisfies the predicate throughout, and stops at the first rune that fails it. |
| Lexer.Strip | internal/parser/lexer.go:55-70 | The result holds exactly the runes of the input other than the dropped one. |
| TokenBuffer.NewParser | src/hyper/parser/parser.go:21-29 | A fresh parser has an empty buffer, index -1, and a buffer in step with the lexer. |
| TokenBuffer.Scan | src/hyper/parser/parser.go:31-40 | The cursor moves one on. A buffered token is returned from the buffer, which stays unchanged. Otherwise the lexer's next token is appended, and the buffer keeps matching the lexer's output. |
| TokenBuffer.Unscan | src/hyper/parser/parser.go:92-94 | The cursor moves one back; the buffer is untouched. |
| TokenBuffer.Rollback | src/hyper/parser/parser.go:96-102 | `Index()` is afterwards the value rolled back to; the buffer is untouched. |
| TokenBuffer.UnscanRescan | src/hyper/parser/parser.go:31-40 | A scan undone by `Unscan` and repeated returns the same token and the same parser. |
| TokenBuffer.RollbackRescan | src/hyper/parser/parser.go:96-102 | After `Rollback(k)` inside the buffer, the next scan returns `buffer[k+1]` without lexing. |
| TokenBuffer.ScanMany | src/hyper/parser/parser.go:31-40 | Repeated scans from a cursor in step with the buffer read the lexer's tokens in order. |
| TokenBuffer.ScanIgnore | src/hyper/parser/parser.go:42-56 | The token returned is not in the ignore set and the cursor moves past it; it fails only when end of input itself is ignored. |
| TokenBuffer.ScanIgnoreSkips | src/hyper/parser/parser.go:42-56 | From a cursor in step with the buffer, the token returned is the stream's first one after the cursor that is not ignored, and every token skipped before it is ignored. |
| TokenBuffer.ScanIgnoreSignificant | src/hyper/parser/parser.go:42-56 | When the next token is not ignored, `ScanIgnore` is one plain `Scan`. |
| TokenBuffer.StreamOf | src/hyper/parser/parser.go:31-40 | The lexer's output: the tokens in order, then the final one (`EOF`) for ever after. |
| BinaryOrder.Order | language/nodes/expression.go:442-465 | Keeps the in-order sequence of operands and operators and the node count. The input is unchanged unless its right child is binary with precedence at most the outer operator's. |
| BinaryOrder.Size | language/nodes/expression.go:442-465 | The node count, which bounds the rotation's recursion. |
| BinaryOrder.OrderWellOrdered | language/nodes/expression.go:442-465 | An operand, an operator and an already ordered right side come out in precedence order. |
| BinaryOrder.ChainParsed | language/nodes/expression.go:240-251 | The expression parsed from an operand chain reads as its source text, and is in precedence order. |
| BinaryOrder.OrderLeftNest | language/nodes/expression.go:447-460 | The rotation turns `t op (a o1 a1 ...)` with equal precedences into the left-nested tree. |
| BinaryOrder.ChainLeftAssociative | language/nodes/expression.go:447-460 | A chain of operators of equal precedence parses left-associative: `a - b - c` is `(a - b) - c`. |
| BinaryOrder.LeftNestSnoc | language/nodes/expression.go:447-460 | Extending a left-nested tree by one pair puts that pair at the root. |
| Expressions.ParseSelector | internal/ast/terminals.go:27-46 | Keeps reading from the same lexer; what it parses is stated by `SelectorRoundTrip`. |
| Expressions.SelectorRoundTrip | internal/ast/terminals.go:27-46 | A written dotted name parses back to its members, with the following token left unread. |
| Expressions.ParseTypeExpression | language/nodes/expression.go:33-78 | Keeps reading from the same lexer; what it parses is stated by `TypeRoundTrip`. |
| Expressions.PartialMark | language/nodes/expression.go:47-56 | The type is partial iff its first token is `Partial`, which must be followed by `<` (otherwise the error names `<` and the token found). Any other first token is stepped back over, leaving the cursor before it. |
| Expressions.TypeRoundTrip | language/nodes/expression.go:33-78 | Every type expression parses back to itself: `IsArray` iff a leading `[]`, `IsPartial` iff `Partial<...>`, `IsOptional` iff a trailing `?`. |
| Expressions.Operand | language/nodes/expression.go:142-251 | Returns only a name or a literal token. A token that starts no expression is refused with the error `ParseExpression` gives, which expects `IDENT`. |
| Expressions.IndexWith | language/nodes/expression.go:665-703 | A right bound occurs only in a range. |
| Expressions.IndexWithRoundTrip | language/nodes/expression.go:665-703 | Every writable index parses back: `Left` is absent iff `:` directly follows `[`, and `IsRange` iff a `:` appears. |
| Expressions.IndexRoundTrip | language/nodes/expression.go:665-703 | The corrected parser reads every writable index back to itself, its `]` included. |
| Expressions.IndexOpenRangeAsWritten | language/nodes/expression.go:685-700 | As written, `[a:]` and `[:]` parse, but the `]` is left as the next token. |
| Expressions.EmptyIndexRefused | language/nodes/expression.go:673-681 | `[]` is not an index: the lower bound is parsed from `]`, which the expression parser refuses. |
| Expressions.ParseCallExpression | language/nodes/expression.go:607-640 | Keeps reading from the same lexer; what it parses is stated by `CallRoundTrip` and `CallMissingComma`. |
| Expressions.CallRoundTrip | language/nodes/expression.go:607-640 | A call with one-token arguments, trailing comma or not, parses back to its arguments, one for one. |
| Expressions.CallMissingComma | language/nodes/expression.go:633-636 | `fn(1 2)` is refused with an error that expects a comma and names the token found. |
| Expressions.ParseAssignmentExpression | language/nodes/expression.go:732-758 | An assignment without a parsed value is `++` or `--`, carrying `+` or `-`. One with a value carries an assignment operator other than `++` and `--`. |
| Expressions.AssignRoundTrip | language/nodes/expression.go:732-758 | A name, an assignment operator and a value parse back to name, operator and value. `x++` gives `ADD` with the literal 1, and `x--` gives `SUB` with 1. |
| Expressions.AssignRefused | language/nodes/expression.go:752-754 | A name followed by a non-assignment operator, such as `abc != 1`, is refused with that operator's position and text. |
| FieldMaps.Split | src/resources/database/map.go:28 | Splitting on `.` gives at least one piece, with no piece containing a dot. It gives exactly one piece iff the key has no dot. |
| FieldMaps.JoinSplit | src/resources/database/map.go:28-33 | Splitting a key and joining the pieces gives the key back. |
| FieldMaps.SplitJoin | src/resources/database/map.go:28-33 | Joining dot-free pieces and splitting again gives the pieces back. |
| FieldMaps.Flatten | src/resources/database/map.go:45-58 | Every value of a flattened map is a leaf, never a nested map. |
| FieldMaps.FlattenLevel | src/resources/database/map.go:45-58 | Whatever the iteration order, a map with dot-free keys flattens to its leaves under their keys, and to each nested map's entries under `key.<inner key>`. |
| FieldMaps.FlattenKeepsLeaf | src/resources/database/map.go:54-56 | A top-level leaf keeps its key and value. |
| FieldMaps.FlattenKeysArePaths | src/resources/database/map.go:45-58 | The flattened keys are exactly the leaf paths, joined with dots. |
| FieldMaps.FlattenCount | src/resources/database/map.go:45-58 | Flattening keeps one entry per leaf. |
| FieldMaps.Unflatten | src/resources/database/map.go:19-43 | The rebuilt keys are the dot-free keys plus the heads of the dotted keys, and none of them has a dot. |
| FieldMaps.UnflattenEntry | src/resources/database/map.go:25-43 | A head of dotted keys holds the map rebuilt from its group, replacing any plain entry of that name. Any other key keeps its value. |
| FieldMaps.Group | src/resources/database/map.go:26-37 | The group of `h` holds `t` exactly when `h.t` is a key, with the same value. |
| FieldMaps.UnflattenFlatten | src/resources/database/map.go:13-43 | `Map` undoes `NewFieldValuesFromEmbeddedMap` on maps whose keys have no dot and whose nested maps are non-empty. |
| FieldMaps.FlattenUnflatten | src/resources/database/map.go:13-58 | `NewFieldValuesFromEmbeddedMap` undoes `Map` on flat maps where no key is another key followed by a dot. |
| Fields.ValidateScalar | src/resources/database/field.go:38-68 | Passes iff the scalar type is known and the value has its Go type. An unknown type is its own error, and a mismatch reports the value. |
| Fields.ValidateInterface | src/resources/database/field.go:78-122 | An enum takes exactly a string among its values. A list takes exactly a list whose every item passes, the empty list included. An object is always refused. |
| Fields.ValidateItems | src/resources/database/field.go:98-109 | Passes iff every item passes, and otherwise reports the first failing item's error. |
| Models.Normalize | src/resources/database/interface.go:77-94 | No object field is left after normalising. |
| Models.Expand | src/resources/database/interface.go:81-88 | Each inner field becomes `parent.child`, keeps its type, and is optional when the parent or the child is. |
| Models.NormalizeAppend | src/resources/database/interface.go:77-94 | Normalising works field by field: a split list normalises to its halves' normal forms, in order. |
| Models.NormalizeFlat | src/resources/database/interface.go:89-90 | A list without object fields is its own normal form. |
| Models.NormalizeIdempotent | src/resources/database/interface.go:77-94 | Normalising twice is normalising once. |
| Models.OptionalParent | src/resources/database/interface.go:86 | Every field an optional object field expands to is optional and named `parent.child`. |
| Models.GetField | src/resources/database/interface.go:59-67 | Returns the first normalised field with the name. It fails exactly when no normalised field has it, naming the field and the model. |
| Models.FirstNamed | src/resources/database/interface.go:59-67 | The index of the first field with the name, or none. |
| Models.TableName | src/resources/database/interface.go:69-71 | Same length, every `.` replaced by `_`, every other rune kept. |
| Models.ValidateWriteArguments | src/resources/database/interface.go:105-119 | Passes iff each normalised field is present with a value its type accepts, or is absent and optional. |
| Models.ValidateWrite | src/resources/database/interface.go:106-118 | The first unacceptable field decides the error. It is `Required` when the field is absent, and the type's own error when the value is refused. |
| Models.ExtraKeysIgnored | src/resources/database/interface.go:105-119 | A key that names no field does not change the outcome. |
| Filters.IsSetCheck | src/resources/database/filter.go:75-82 | Passes exactly on an optional field with a bool value. |
| Filters.ValidateScalarFilter | src/resources/database/filter.go:51-209 | A key that is not a field, or not a scalar field, is refused, and a scalar field of an unknown type is refused as an invalid data type. Text types take equality and substrings and forbid ordering. Numbers and times take equality and ordering and forbid substrings. Booleans take only equality and `IsSet`. `In` needs the type's slice. |
| Filters.ValidateEnumFilter | src/resources/database/filter.go:230-267 | `Equals` takes a member of the enum, and `In` a string list of members. `IsSet` takes a bool on an optional field. Any other condition is invalid. |
| Filters.EnumValues | src/resources/database/filter.go:245-255 | Passes iff every listed string is a member of the enum. |
| Filters.ValidateListFilter | src/resources/database/filter.go:291-327 | `Equals`, `HasEvery` and `HasSome` take a list of the field's type, and `Has` one item. `IsEmpty` takes a bool, and `IsSet` a bool on an optional field. Any other condition is invalid. |
| Filters.Validate | src/resources/database/filter.go:343-350 | The is-set condition behaves the same on every filter kind. A composite is valid iff all its filters are, and the empty composite is valid. |
| Filters.ValidateAll | src/resources/database/filter.go:343-350 | Passes iff every sub-filter passes, and otherwise reports the first failing one's error. |
| Filters.CheckField | src/resources/database/interface.go:135-137 | A name passes iff the model has a field of that name; otherwise the error is the lookup failure naming the field and the model. |
| Filters.FirstFailure | src/resources/database/interface.go:134-148 | A loop of checks passes iff every check passes; otherwise it reports the first failing check's error. |
| Filters.KnownFields | src/resources/database/interface.go:134-148 | Passes iff every name is a field, and otherwise reports the first unknown name. |
| Filters.ValidateQueryArguments | src/resources/database/interface.go:130-150 | Passes iff the filter passes and every `orderBy`, `distinct` and `groupBy` name is a field. A filter error is reported as is; otherwise some unknown name is reported, whatever the map order. |
| Arrays.NewArray | internal/symbols/objects.go:277-283 | An array of the requested length, every item nil. |
| Arrays.Length | internal/symbols/objects.go:251-258 | The number of items. |
| Arrays.Append | internal/symbols/objects.go:242-250 | Length grows by one, the earlier items are kept, and the new item is last. |
| Arrays.GetIndexAsWritten | internal/symbols/objects.go:184-189 | As written, the guard `index > len` lets `index == len` through to a Go panic. Every other index inside the array returns its item. |
| Arrays.GetIndex | internal/symbols/objects.go:184-189 | Returns item `i` exactly for `0 <= i < len`, and `IndexOutOfRange` otherwise. |
| Arrays.SetIndexAsWritten | internal/symbols/objects.go:190-196 | As written, `index == len` panics. |
| Arrays.SetIndex | internal/symbols/objects.go:190-196 | Succeeds exactly for `0 <= i < len`. It changes only position `i`, and keeps the length and the item class. |
| Arrays.GetAfterSet | internal/symbols/objects.go:184-196 | Reading the index just written gives the written item, and every other index is unchanged. |
| Arrays.IndexVersionsAgree | internal/symbols/objects.go:184-196 | Away from `index == len`, the versions as written and as corrected agree. |
| Arrays.GetRangeAsWritten | internal/symbols/objects.go:197-224 | As written, every reversed range (`start > end`) comes back empty. |
| Arrays.GetRange | internal/symbols/objects.go:197-224 | A start, then an end, outside `[0, len]` is refused. A forward range is `items[start:end]`. A reversed range holds `start - end` items of the reversed array. |
| Arrays.RangeVersions | internal/symbols/objects.go:205-217 | The two versions agree except on reversed ranges, where the corrected one is non-empty. |
| Arrays.ReverseReverse | internal/symbols/objects.go:210-213 | Reversing twice gives the items back. |
| Arrays.RangeCheck | internal/symbols/objects.go:226-234 | Passes exactly when `0 <= start <= end <= len`. |
| Arrays.SetRangeAsWritten | internal/symbols/objects.go:225-240 | As written, when the first `append` fits the capacity, the tail is overwritten before it is copied back: item `start + |ins|` is `ins[end - start]`. |
| Arrays.SetRange | internal/symbols/objects.go:225-240 | Refuses the same ranges as the source. Otherwise the result is `items[:start] ++ ins ++ items[end:]`. |
| Arrays.GetAfterSetRange | internal/symbols/objects.go:197-240 | Reading back the range just written gives the inserted items. |
| Arrays.AppendIsSplice | internal/symbols/objects.go:225-250 | `append(x)` is the splice of `[x]` at the end. |
| Arrays.SetRangeVersions | internal/symbols/objects.go:235-239 | The two versions agree when the `append` reallocates, or the inserted items end before the tail. |
| Arrays.SetRangeOverwritesTail | internal/symbols/objects.go:235-239 | `[1,2,3]`, with its first item replaced by `[9,9]` at full capacity, gives `[9,9,9,3]` instead of `[9,9,2,3]`. |
| Arrays.GoCopy | internal/symbols/objects.go:179 | `copy(dst, src)` overwrites the common prefix of `dst` with `src`. |
| Arrays.ConstructAsWritten | internal/symbols/objects.go:177-181 | As written, the copy runs from the new array into the argument, so both end up all nil. |
| Arrays.Construct | internal/symbols/objects.go:177-181 | The copy constructor gives an array equal to its argument. |
| Arrays.ConstructVersions | internal/symbols/objects.go:177-181 | With any non-nil item, the two versions differ, and the argument itself is clobbered. |
| Symbols.NewSymbolTable | src/hyper/symbols/symbols.go:22-44 | The builtins become the immutable scope, the local scope starts empty, and there is no loop. Both scopes are new maps, and nothing else changes. |
| Symbols.Get | src/hyper/symbols/symbols.go:46-57 | Looks in the immutable scope, then the local one, then the root. It returns nil when none has the key or there is no root. Only the root can fail. |
| Symbols.GetFrame | src/hyper/symbols/symbols.go:46-57 | A lookup depends only on the table's own two maps and its root. |
| Symbols.Declare | src/hyper/symbols/statement.go:32-49 | Fails iff the name is immutable (`CannotReassignImmutableValue`) or already local (`CannotRedeclareValue`). Otherwise only the local map changes, and the name then resolves to the value. |
| Symbols.Clone | src/hyper/symbols/symbols.go:58-73 | Both maps are copied into new maps, and the root and the loop state are shared. |
| Symbols.CloneAgrees | src/hyper/symbols/symbols.go:58-73 | A clone resolves every name as the original does. |
| Symbols.CloneIsolation | src/hyper/symbols/symbols.go:58-73 | A declaration in a clone leaves every lookup in the original as it was, while the clone sees the new name. |
| Symbols.StartLoop | src/hyper/symbols/symbols.go:74-81 | A clone with a new loop state, both flags false. The existing loop states are untouched. |
| Symbols.Step | src/hyper/symbols/symbols.go:94-116 | An object member is found or fails with its error. A class property is found when declared. Any other value has no members. |
| Symbols.ResolveSelector | src/hyper/symbols/symbols.go:83-120 | An unknown first member is `UnknownSelector`, and a failing lookup is passed on. A single member resolves to its value. |
| Symbols.ResolveSnoc | src/hyper/symbols/symbols.go:92-117 | Resolving one more member is one more step from the shorter selector. A missing member is reported against the shorter selector's spelling (`UnknownProperty`). |
| Symbols.ResolveLiteral | src/hyper/symbols/symbols.go:122-137 | String, integer, float, bool and nil literals resolve, and any other Go type is an invalid syntax tree. |
| Symbols.LiteralRoundTrip | src/hyper/symbols/symbols.go:122-137 | A resolved value reads back as its literal, and every value comes from one. |
| Domains.NewDomainFromSelectors | internal/domain/context.go:264-273 | Keeps exactly the domain and context entries, unchanged. |
| Domains.AddParts | internal/domain/context.go:278-298 | A context on the path is an error. Another value on the path leaves the domain as it was. Otherwise the context is reachable under the selector, nested domains are created as needed, and no other key changes. |
| Domains.AddContextBySelector | internal/domain/context.go:278-298 | A one-part selector sets `d[sel]` to the context. A free path makes the context reachable under the selector. |
| Domains.RejoinedTail | internal/domain/context.go:284-295 | Rejoining the remaining parts with `.` and splitting again gives the same parts, so the recursion on parts is the source's. |
| Domains.AddContextToSelectors | internal/domain/context.go:300-304 | Every old selector that is neither a domain nor a context is dropped, except where the import itself lands. |
| Log.Index | src/runtime/log/log.go:19-26 | The level's position in `LoggerLevels`, or -1 exactly for a string that is not a level. |
| Log.IndexFrom | src/runtime/log/log.go:19-26 | The first position of the level at or after the start, or -1 when there is none. |
| Log.IndexOfLevel | src/runtime/log/log.go:36 | The levels are distinct: each level's index is its position. |
| Log.Upper | src/runtime/log/log.go:68 | Same length, ASCII letters upper-cased, and every other rune kept. |
| Log.InitialLevel | src/runtime/log/log.go:65-72 | An unset or empty `LOG_LEVEL` gives INFO's index. Otherwise the index of the upper-cased value. |
| Log.SetLevel | src/runtime/log/log.go:74-82 | A known level becomes current, and an unknown one gives INFO (1). |
| Log.Output | src/runtime/log/log.go:88-105 | A message goes out iff the current level is at most its level's index. An unknown level becomes INFO, a zero timestamp becomes the clock's, and the signal, text and data pass through unchanged. |
| Log.OutputThreshold | src/runtime/log/log.go:98-104 | What passes at one level passes at every more severe one, and a message at the level just set always passes. |
| Log.UnknownEnvironmentLevel | src/runtime/log/log.go:65-82 | An unknown `LOG_LEVEL` lets every message through, while `SetLevel` with an unknown level holds back DEBUG. |
| Durations.UnitLadder | internal/stdlib/time.go:10-16 | microsecond 1, millisecond 1000, second 1e6, minute 60 seconds, hour 60 minutes. |
| Durations.Wrap | internal/stdlib/time.go:87-103 | An `int64` result equals the mathematical one modulo 2^64, and is unchanged when it fits. |
| Durations.Operate | internal/stdlib/time.go:87-103 | `+` and `-` exist with a Duration or an Integer on the right, and `*` only with a Duration. Each agrees with integer arithmetic modulo 2^64. |
| Durations.OperateArithmetic | internal/stdlib/time.go:87-103 | Without overflow, `+` and `-` are plain arithmetic. Adding then subtracting the same amount gives the duration back, even across a wrap. |
| Durations.Compare | internal/stdlib/time.go:104-123 | The six comparators agree with the integer order; any other token has none. |
| Durations.Quo | internal/stdlib/time.go:129-130 | Go's truncating division: the remainder has the dividend's sign and is smaller than the divisor. |
| Durations.ToUnits | internal/stdlib/time.go:125-132 | The truncated quotient. A zero unit panics, and the most negative duration divided by -1 wraps to itself. |
| Mime.FromString | src/hyper/stdlib/mime.go:24-32 | Succeeds iff the string is one of the listed types, compared case-sensitively. The value is the string, and otherwise the error names it. |
| Mime.Find | src/hyper/stdlib/mime.go:26-30 | The first equal entry of the list, or none exactly when no entry is equal. |
| QueryOptions.FromMap | src/hyper/interfaces/state/options.go:14-26 | Succeeds iff `skip` and `limit`, where present, are `nil` or integers. Each takes its integer, or -1 when absent or `nil`. |
| QueryOptions.Read | src/hyper/interfaces/state/options.go:19-24 | An absent key or a stored `nil` gives the default, an integer its value, and anything else a panic. |
| QueryOptions.Getter | src/hyper/interfaces/state/options.go:30-36 | nil exactly when the stored value is -1. |
| QueryOptions.SetSkip | src/hyper/interfaces/state/options.go:37-43 | Stores exactly the positive values, refuses the rest, and changes nothing else. |
| QueryOptions.SetLimit | src/hyper/interfaces/state/options.go:53-59 | Stores exactly the positive values, refuses the rest, and changes nothing else. |
| QueryOptions.GetAfterSet | src/hyper/interfaces/state/options.go:30-59 | Getting after setting gives the value set, and leaves the other property as it was. |
| QueryOptions.FromMapThenGet | src/hyper/interfaces/state/options.go:14-52 | A property built from a map reads back as the map's integer, or as nil when absent, `nil` or -1. |

## Left out

- Positions. The lexer tracks line and column. The parsers carry positions only in their errors, and the round-trip lemmas do not relate positions.
- Character classes are ASCII letters and digits plus the Latin-1 spaces. Go's `unicode` tables are not reproduced.
- Symbols.Get: a key present in a scope is found there. Go also skips a key whose stored value is `nil` (src/hyper/symbols/symbols.go:47-52), but the model's scopes hold no `nil` entries.
- Symbols.Declare: a name present in a scope blocks the declaration. Go lets a name through when its stored value is `nil` (src/hyper/symbols/statement.go:33-38), and the model has no `nil` entries for the same reason.
- Lexer.StringBody: the contract states only where the body ends. What the literal holds is stated by Lexer.StringBodyRoundTrip and Lexer.StringRoundTrip, because the decoded text is only determined once the writer's escaping is fixed.
- Lexer.LexComment: the contract states only how far the read head moves. The literal is stated by Lexer.LineCommentToEnd, Lexer.LineCommentsJoined and Lexer.ContinuationSkipsBlanks for line comments and by Lexer.BlockCommentClosed for block comments, because each kind has its own layout.
- `ScanUntil` (src/hyper/parser/parser.go:58-90) is not part of this model: its guard makes it panic on every call.
- `ParseExpression` is a parameter of the call and index parsers. The round-trip lemmas use `Expressions.Operand`, a one-token expression, in its place. Its other cases (arrays, instances, unary, values) are not modelled.
- The token buffer's lexer is a fixed token sequence ending in `EOF`. The call parser's argument loop relies on that.
- Go map iteration order is never chosen:
  - `Flatten` holds for every order.
  - `ValidateQueryArguments` takes the order as a parameter.
- Errors are kinds with their data, not formatted messages.
- Float payloads play no part. `toUnits` returns a float in Go; the model returns the integer quotient before that conversion.
- `Log.Upper` is ASCII upper case only, not `strings.ToUpper` on all of Unicode.
- The logger call itself, `Print`, `Printf`, the logger interfaces and the clock are left out. `Output` returns the message it would hand over, and `now` is a parameter.
- `TimePackage.Get`, the `DateTime` class and the `MimeTypesPackage.Get` accessor are left out: they are registries of classes and functions with no logic of their own.
- Slice aliasing is left out:
  - `GetRange` returns a view of the array in Go;
  - nested `Domain` maps are shared.
  - The model copies values, except for the one `SetRange` aliasing effect, which is modelled explicitly. The capacity there is a parameter.
- `NewArray` with a negative length is a Go panic; the model takes a natural length.
- The builtin class values a new symbol table holds come from code outside this model, so they are a parameter.
- The nilable, map and error classes of internal/symbols/objects.go are left out: they are wrappers over the class system.
- The rest of `ResolveDeclarationStatement` is left out: the secondary target and the evaluation of the initial value. Only its write into the local scope is modelled.
- internal/symbols/types.go is not part of this model. Nor are the interfaces of the symbol package, or the Go types of field values, which become one `Dyn` datatype.
- A nil filter passed to `ValidateQueryArguments` panics in Go. The model's filter is always present.
- Expressions.ParseSelector, Expressions.ParseTypeExpression and Expressions.ParseCallExpression: their own contracts say only that they keep reading the same lexer. What they return for written input is stated by the round-trip and refusal lemmas, for one-token operands.
- Mime.FromString: no lemma names a concrete member of the 420-entry list, because every such instance is costly for the verifier. The general membership iff covers them.

## Findings

| source | as written | input that shows it | evidently intended | confidence | as-written member | corrected member |
|---|---|---|---|---|---|---|
| internal/parser/lexer.go:33-40 | `read` panics when the reader is at end of input, so every lookahead that meets the end panics: `lexIdent` never returns a word that ends the input, and the same holds for a number such as `123`, a trailing operator such as `+` and a line comment that ends the input | `abc` on its own | end of input stops the loop like any non-identifier rune (the lexer tests expect `abc`) | high; not executed | Lexer.LexIdentAsWritten, Lexer.IdentAtEndFinding | Lexer.LexIdent |
| internal/parser/lexer.go:123-143 | on a backslash, `lexString` backs up before `lexEscaped`, which re-reads the backslash: no escape is decoded, and `\"` ends the literal | `"a\"\\b"` | `a"\b`, as the lexer tests expect | high; not executed | Lexer.StringBodyAsWritten, Lexer.StringEscapeFinding | Lexer.StringBody, Lexer.StringRoundTrip |
| language/nodes/expression.go:685-700 | after `:`, the `]` is peeked at and unread, and nothing reads it afterwards | `[a:]` | the `]` is read, as it is for every other index form | medium; not executed | Expressions.IndexOpenRangeAsWritten | Expressions.IndexRoundTrip |
| internal/symbols/objects.go:184-196 | the guard `index > len` lets `index == len` through to a slice access | index 3 of a 3-item array | `index >= len` is out of range | high; not executed | Arrays.GetIndexAsWritten, Arrays.SetIndexAsWritten | Arrays.GetIndex, Arrays.SetIndex |
| internal/symbols/objects.go:205-217 | `start :=` declares a new `start`, which the next line reads, so the reversed range is `s[end:end]` | `GetRange(2, 0)` on `[1,2,3]` | the reversed slice `s[min:max]`, two items | high; not executed | Arrays.GetRangeAsWritten | Arrays.GetRange |
| internal/symbols/objects.go:235-239 | `tailItems` aliases the backing array, and the first `append` overwrites it before it is copied back | `SetRange(0, 1, [9,9])` on `[1,2,3]` at full capacity | `[9,9,2,3]` | high; not executed | Arrays.SetRangeAsWritten, Arrays.SetRangeOverwritesTail | Arrays.SetRange |
| internal/symbols/objects.go:177-181 | `copy(arr.Items, newArray.Items)` copies the blank array into the argument | constructing from `[1]` | `copy(newArray.Items, arr.Items)`: a copy of the argument | high; not executed | Arrays.ConstructAsWritten, Arrays.ConstructVersions | Arrays.Construct |
