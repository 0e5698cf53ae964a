# Models of a database client's core

Dafny models of four parts of the client library, with proofs of what they promise.

- **The SQL front end** (`src/completion.cpp`, quoting in `src/sql_builder.cpp`): the dialect-driven tokenizer, the two
  statement splitters, the scope tree, name lookup, column derivation, matching, ranking, quoting, and the edit a
  completion makes.
  `Text`, `Lexer`, `Tokenizer`, `LexForms`, `LexCompose`, `LexTheorems`, `Statements`, `StatementTheorems`, `Quoting`,
  `Relations`, `Lookups`, `Editing`, `Matching`, `Items`, `Scopes`, `Shadowing`, `Columns`, `SelectItems`,
  `ColumnMeaning`, `NestedBodies`, `SelectLists`, `Completing`.
- **The PostgreSQL session** (`src/postgres_connection.cpp`): the early-stop test, the streaming loop, and the cache of
  the server's search path. `StoppableReads`, `PgStream`, `PgAnswers`, `PgPath`, `PgSends`.
- **The plan trees** (`src/explain.cpp`): the indentation stack, the parent-id builder, self times.
  `Plans`, `IndentTree`, `IndentStack`, `RowTree`, `PlanText`, `SelfTimes`.
- **The MSSQL cancel protocol** (`src/mssql_connection.cpp`): calls, cancels and other users of one connection,
  interleaved one shared access at a time. `MssqlCancel`, `MssqlAim`, `MssqlRuns`.

Texts are strings whose characters stand for bytes; everything from U+0080 up is treated as the code treats a byte
>= 0x80. `Lexer.Munch` is the one-token function and `Lexer.Tokens` the token list; the loops of `Tokenizer` are proved
to compute it, and every theorem about tokens is about that function. Times are reals. Code that loops or updates
fields is a method over the same loop or fields, proved against a specification function; the theorems are about the
functions. What the driver, the server or another thread does arrives as a parameter or as a step of a run.

Where the code does less than one would expect, a lemma gives an input, and another says exactly when it is right:

| the code | an input | exactly when |
|---|---|---|
| The two splitters disagree on whitespace at the end of a token nobody closed. | `StatementTheorems.UnclosedQuoteDisagrees` | `StatementTheorems.SplittersAgree` |
| A longer prefix matches better than one of fewer than two bytes. | `Matching.TypingCanWiden` | `Matching.TypingOnlyNarrows` |
| Two different items share a dedupe key. | `Items.KeysCollide` | `Items.KeyIsFields` for any item; `Completing.OfferedKeysDiffer` for those of a completion |
| The early-stop test takes `table_x` for a TABLE command. | `StoppableReads.TableUnderscorePasses` | `StoppableReads.StoppableIsCommand` |
| The depth limit hides columns of bodies nested four deep. | `NestedBodies.FourBodiesExceedTheLimit` | `ColumnMeaning.MaxDepthIsExact`: the limit cuts nothing off |
| The search-path cache goes stale: the server takes back a path moved in a transaction when another thread's query, or the client's own SET, fails in it, or a batch moves the path under a name the client does not look for; a batch is then sent under another path. | `PgPath.CatalogFailureInTxGoesStale`, `PgPath.OwnSetFailureGoesStale`, `PgPath.AbortGoesStale` | `PgPath.RunAgreesExactly`, `PgSends.BatchesRunUnderTheirSchema` |
| The parent-id builder recurses for ever. | `RowTree.TopIdNeverEnds` | `RowTree.EndsExactly` |
| A row tree's raw text does not read back. | `PlanText.LeadingSpaceIsLost` | `PlanText.TextReadsBack` |
| A cancel stops a call that began after it asked. | `MssqlRuns.LateCancelLeavesTheFlag`, `MssqlRuns.LateCancelStopsAWaiter` | `MssqlAim.CancelsStopTheirOwn` |
| A cancel meant for a waiting call stops nobody. | `MssqlRuns.CancelIsSwallowed` | `MssqlAim.WriteStopsExactly`, `MssqlAim.WriteReachesAWaiter` |
| A row fetch that fails ends its table early, as a success. | `MssqlRuns.LostRowReadsAsSuccess` | `MssqlCancel.FinishedIsHonest` |

## Model

| member | source | states |
|---|---|---|
| Tokenizer.Tokenize | src/completion.cpp:165-296 | the index loop, branch by branch, yields exactly the token list `Tokens`, for every text and dialect |
| LexForms.StringReads | src/completion.cpp:170-220 | text in single quotes is one string with the bytes it stands for, open only if nothing closes it; a backslash escapes there under MySQL, MariaDB and TiDB only |
| LexForms.DoubleQuotesRead | src/completion.cpp:170-223 | in double quotes it is such a string under those three, and elsewhere a quoted identifier without escapes |
| LexForms.BackticksRead | src/completion.cpp:170-226 | backticks quote an identifier under those three and SQLite; elsewhere each is an operator |
| LexForms.BracketsRead | src/completion.cpp:170-229 | brackets quote one under SQLite and SQL Server; elsewhere the opening one is an operator |
| LexForms.LiteralReadsBack | src/completion.cpp:170-220 | any bytes, written between single quotes with quotes and, under the three, backslashes doubled, read back as one closed string with those bytes |
| LexForms.EscapedQuoteStays | src/completion.cpp:170-194 | where a backslash escapes, a quote behind one stays inside, whatever is written before and after it |
| LexForms.LineCommentReads | src/completion.cpp:206-212 | `--`, and under the three `#`, starts a comment that ends before the line break |
| LexForms.HashReads | src/completion.cpp:206-273 | elsewhere `#` is an operator, but under SQL Server starts a word that may hold more of them |
| LexForms.BlockCommentReads | src/completion.cpp:213-217 | a block comment ends with the first closing mark behind its body, and without one at the end of the text, open |
| LexForms.DollarQuoteReads | src/completion.cpp:230-245 | `$tag$` starts a string under the five systems with dollar quotes, which the first such mark behind it closes |
| LexForms.DollarStands | src/completion.cpp:230-291 | elsewhere a dollar before no digit is an operator |
| LexForms.OpenTagStands | src/completion.cpp:230-245 | and so it is everywhere when no second dollar ends the tag |
| LexForms.NumberReads | src/completion.cpp:246-265 | digits, letters, underscores and dots that start with a digit are one number |
| LexForms.ExponentReads | src/completion.cpp:251-265 | a sign goes on with a number behind an `e` and before a digit |
| LexForms.LeadingDotReads | src/completion.cpp:246-265 | a dot before a digit starts a number, but is punctuation behind the byte of an operand |
| LexForms.WordRuns | src/completion.cpp:266-273 | a word goes on over letters, digits, underscores, dollars and bytes from 0x80, and under SQL Server over `#` |
| LexForms.ParamReads | src/completion.cpp:274-282 | `@`, `?`, a dollar before a digit and a single colon before a name start a parameter, up to the end of its name |
| LexForms.ColonStands | src/completion.cpp:274-291 | behind a colon, or before anything but a name, a colon is an operator |
| LexForms.OperatorReads | src/completion.cpp:287-291 | the bytes without another use are operators of one byte, and so are a dash and a slash that start no comment |
| LexForms.PunctuationReads | src/completion.cpp:283-286 | parentheses, commas, semicolons and dots before no digit are punctuation of one byte |
| LexTheorems.LexOrdered | src/completion.cpp:165-296 | tokens are non-empty, in order, disjoint and inside the text |
| LexTheorems.LexCovers | src/completion.cpp:165-296 | every byte is whitespace or inside a token |
| LexTheorems.LexMunches | src/completion.cpp:165-296 | every token is the one-token function applied at its own start with the byte before it |
| LexCompose.MunchWindow | src/completion.cpp:165-296 | a token depends only on its bytes and on whitespace, punctuation or an end behind it: the same bytes in another text give the same token |
| LexTheorems.BoundaryIff | src/completion.cpp:165-296 | an offset is a place to cut exactly when no token straddles it |
| LexTheorems.Split | src/completion.cpp:165-296 | cutting a text at such a place cuts its token list there |
| LexTheorems.Join | src/completion.cpp:165-296 | joining two texts where the second starts with whitespace or punctuation joins their token lists, if nothing at the end of the first is open or goes on |
| LexTheorems.LexNeutral | src/completion.cpp:165-296 | the byte before a text matters only through the one-byte look-behind, and then only to a dot or a colon |
| Statements.StatementRanges | src/completion.cpp:2052-2073 | the loop returns the byte ranges of the statement list |
| Statements.StatementsExact | src/completion.cpp:2052-2073 | the list holds maximal stretches between semicolons, from first to last token, in order, and every token that is no comment and no `;` is in one |
| Statements.StatementAt | src/completion.cpp:307-323 | the loop returns the stretch between the last semicolon ending at or before the offset and the next one |
| Statements.SpanAtUnique | src/completion.cpp:307-323 | there is only one such stretch |
| Statements.StatementRangeAt | src/completion.cpp:2038-2050 | the loops return that stretch without its outer whitespace, for the offset clamped to the text |
| Statements.RangeAtUnique | src/completion.cpp:2038-2050 | there is only one such range |
| StatementTheorems.NeutralBefore | src/completion.cpp:165-296 | after a semicolon, a comment or whitespace, look-behind sees nothing it would have seen at the start of a text |
| StatementTheorems.CutAndResplit | src/completion.cpp:2052-2073 | every listed statement, cut out and tokenized alone, has its old tokens shifted, and splits into exactly one range, all of it |
| StatementTheorems.SplittersAgree | src/completion.cpp:2038-2073 | at any offset of a listed range, the other splitter's range holds it, up to the trailing whitespace of an unclosed token, and adds only comments and whitespace |
| StatementTheorems.UnclosedQuoteDisagrees | src/completion.cpp:2038-2073 | a quote nobody closed and a space behind it: one splitter ends at 3, the other at 2 |
| StatementTheorems.ClosedEndsSolid | src/completion.cpp:165-296 | a closed token that is no comment never ends in whitespace, so on closed statements the splitters agree outright |
| StoppableReads.StoppableRead | src/postgres_connection.cpp:146-156 | the loops compute the early-stop test over the range the splitter returns |
| StoppableReads.StoppableIsOneRead | src/postgres_connection.cpp:146-156 | the test passes only on a text of exactly one statement, whose first letters spell SELECT, TABLE or VALUES, with only whitespace before it and only semicolons and whitespace from its first semicolon on |
| StoppableReads.OneReadIsStoppable | src/postgres_connection.cpp:146-156 | and it passes on every text of one such statement with only whitespace before it and only semicolons and whitespace from its first semicolon on |
| StoppableReads.StoppableIsCommand | src/postgres_connection.cpp:152-155 | the first token is the whole word SELECT, TABLE or VALUES if and only if the test passes and the byte behind the first letters does not continue a word |
| StoppableReads.TableUnderscorePasses | src/postgres_connection.cpp:152-155 | the test passes on a text whose only word is `table_x` |
| Quoting.QuoteIdentifier | src/sql_builder.cpp:106-116 | the escaping loop gives the name with its closing bytes doubled, in the quotes of the dialect's builder |
| Quoting.QuotedNameReads | src/sql_builder.cpp:588-632 | a quoted name, whatever its bytes and whatever follows but another closing quote, reads as one closed quoted identifier with that text |
| Quoting.WordReads | src/completion.cpp:2013-2030 | a name that needs no quotes reads as one word with that text |
| Quoting.NameReads | src/completion.cpp:1780-1783 | a name as the completer writes it, before whitespace, punctuation or an end, reads as one closed identifier spelling it |
| Quoting.QuoteAndReadBack | src/completion.cpp:2032-2036 | quoting a name if needed and tokenizing the result gives that name, for every dialect, any bytes and any reserved words |
| Quoting.BareSurvives | src/completion.cpp:2013-2036 | a name is left bare if and only if, bare, it is a word, the case folding of its server leaves it as it is, and it is not reserved |
| Quoting.QuotesAreTheSystems | src/sql_builder.cpp:588-632 | the quotes around a name are backticks for MySQL and its kin, brackets for SQL Server, and double quotes elsewhere |
| Quoting.PathReads | src/completion.cpp:1785-1795 | a dotted path as written reads back as its names, and all its tokens are closed |
| Relations.SplitJoin | src/completion.cpp:78-100 | splitting a path joined from dot-free parts gives the parts back |
| Relations.ComputeRelativeSchema | src/completion.cpp:1746-1760 | the two loops drop the leading segments shared with the default and join the rest |
| Relations.RelativeIsSuffix | src/completion.cpp:1746-1760 | the relative path is an end of the relation's own schema path |
| Lookups.RelativeDropsMost | src/completion.cpp:1746-1760 | what is dropped is the longest shared beginning that leaves a segment over |
| Relations.FindRelation | src/completion.cpp:1189-1216 | the two passes over tables and views fold to the best candidate |
| Relations.FindBestIsBest | src/completion.cpp:1174-1216 | that candidate matches name and qualifier, is the first of those with the highest rank, and is missing only when none matches |
| Lookups.LookupChooses | src/completion.cpp:1189-1216 | the relation found is in the default schema if any match is, else without a schema if any is; of those alike it has the exact name if any has, and it is the first such, tables before views; none is found only when none matches |
| Lookups.ChosenIsUnique | src/completion.cpp:1189-1216 | only one relation answers to that description |
| Lookups.QualifierNamesTheEnd | src/completion.cpp:1174-1187 | a qualifier matches a schema path if and only if, written with dots, it is the whole path or what follows one of its dots, in any case |
| Lookups.OfferedFindsHome | src/completion.cpp:1884-1900 | the path offered for a relation finds one in the default schema if it is there itself, and else one whose schema ends in the relative schema offered |
| Relations.OfferedPathMatches | src/completion.cpp:1174-1187 | the path offered for a relation matches that relation |
| Relations.OfferedPathResolves | src/completion.cpp:1189-1216 | the text inserted for a relation reads back as its offered path, and looking that up finds a relation of that name ranked no lower than the one offered |
| Editing.SomeInert | src/completion.cpp:2092-2115 | the loop finds out whether the cursor is in a string, comment, number or parameter |
| Editing.ReplaceRange | src/completion.cpp:2083-2136 | nothing is offered there or for the two non-SQL types; elsewhere the range is the identifier at the cursor, or empty |
| Editing.WhereNothingIsOffered | src/completion.cpp:2092-2115 | in or at the end of each kind of token, closed or not, whether something is offered there |
| Editing.WhatIsReplaced | src/completion.cpp:2120-2136 | the range is the word the cursor stands in or right behind, or the quoted identifier while it is open; in and behind every other token it is empty |
| Editing.TargetBoundaries | src/completion.cpp:2120-2136 | the replaced range never cuts a token |
| Editing.PrefixStays | src/completion.cpp:2083-2136 | the tokens before a boundary at whitespace or punctuation stay what they are, whatever is put behind that byte |
| Editing.InsertedTokens | src/completion.cpp:2083-2136 | inserted text that is finished lexes to its own tokens and then those of the rest; between punctuation, if it starts and ends as a name |
| Editing.AcceptIsLocal | src/completion.cpp:2083-2136 | with whitespace, punctuation or an end around the range, the edited text lexes to the old tokens before, the inserted ones, and the old ones after, shifted |
| Items.InsertIsClosed | src/completion.cpp:1769-1795 | whatever an item inserts, keyword or path of names, starts and ends as a name does, with all tokens closed and none a comment or a number |
| Items.KeywordCases | src/completion.cpp:1769-1778 | a keyword keeps its letters: as in the table after a capital or no letter, all small otherwise |
| Items.AcceptItemIsLocal | src/completion.cpp:1769-1795 | so accepting such an insertion is a local edit of the token list |
| Matching.IFind | src/completion.cpp:53-62 | the loop finds the first case-insensitive occurrence, and none only when there is none |
| Matching.CheckSubsequence | src/completion.cpp:63-70 | the scan is true exactly when some increasing choice of places spells the prefix |
| Matching.GreedyIsExact | src/completion.cpp:63-70 | picking greedily reaches the end exactly when some choice does |
| Matching.MatchTier | src/completion.cpp:999-1022 | the branches and the word-boundary loop return the highest tier whose definition holds; no byte before the label is read |
| Matching.PlaceGivesTier | src/completion.cpp:999-1022 | a match at the start has at least 4000, with its case 4150; behind `_`, `.`, a space or a change of case at least 3000; anywhere, fuzzily and from two bytes on, at least 2000 |
| Matching.TierHasPlace | src/completion.cpp:999-1022 | and a label of each of those tiers holds a match in such a place |
| Matching.LowTiers | src/completion.cpp:999-1022 | below them two bytes or more are picked fuzzily for 1000, and all else is no match |
| Matching.CheckWordStarts | src/completion.cpp:1006-1013 | going from one occurrence to the next finds out whether one starts a word |
| Matching.OccurrenceIsSubsequence | src/completion.cpp:999-1022 | the ways of matching are ordered: each implies the weaker ones |
| Matching.TypingOnlyNarrows | src/completion.cpp:999-1022 | a longer prefix never has a higher tier than a shorter one of at least two bytes; for shorter ones, exactly when it does |
| Matching.TypingCanWiden | src/completion.cpp:999-1022 | a label for each way a longer prefix can match better than a shorter one of fewer than two bytes |
| Items.Emitter.Add | src/completion.cpp:1797-1809 | an item is appended with its tier plus its bonus, or left out by the three guards |
| Items.Emitter.Path | src/completion.cpp:1785-1795 | the loop writes the path's names, quoted as needed and joined by dots |
| Items.RankingIsStrictWeak | src/completion.cpp:1811-1821 | the comparator is irreflexive, asymmetric and transitive, and ties are transitive |
| Items.OutranksMeans | src/completion.cpp:1811-1821 | an item comes first by its score, then by its label at the first byte that differs in any case, then by kind in the listed order, then by owner |
| Items.SortRanks | src/completion.cpp:1811-1821 | sorting by it leaves no item behind one it outranks |
| Items.TakeFrom | src/completion.cpp:1811-1831 | the output is ranked, has no repeated key, holds only added items, and for every added item holds one with its key and no lower score |
| Items.Emitter.Take | src/completion.cpp:1811-1831 | and so for the items an emitter holds |
| Items.KeyIsFields | src/completion.cpp:1824-1828 | an item's key tells it from every other item record, by kind, label, inserted text or owner, if and only if none of its fields holds the separator byte; the other record need not be one a completion makes |
| Items.KeysCollide | src/completion.cpp:1824-1828 | two PostgreSQL columns a completion can offer together, with different labels and one key |
| Completing.Complete | src/completion.cpp:2075-2237 | what a completion returns for any offers: nothing where nothing may be offered; else items ranked and without repeats, each from an offer not left out and each a local edit when accepted, and every offer not left out is represented |
| Completing.AddOffer | src/completion.cpp:1797-1809 | an offer becomes an item that inserts its keyword, name or path, with its tier and bonus, unless left out |
| Completing.WhatIsShown | src/completion.cpp:1797-1809 | which offers are left out: words inside a quote, what is typed whole outside one, and labels without a match |
| Completing.OfferedKeysDiffer | src/completion.cpp:1824-1828 | items of a completion, each inserting its own label, share a key only if they agree in kind, label, inserted text and owner, unless the name of a schema or an owner holds the separator byte |
| Completing.OfferedRelationResolves | src/completion.cpp:1884-1900 | the item of any relation, accepted, reads back as a path that finds a relation of that name ranked no lower |
| Scopes.StepValid | src/completion.cpp:1594-1616 | one token keeps the whole invariant of stack, spans, parents and innermost groups |
| Scopes.ScopesWellFormed | src/completion.cpp:1594-1616 | on any token list, balanced or not, spans nest or are disjoint, parents come first, and each token's group is the innermost around it |
| Scopes.ParenthesesMarked | src/completion.cpp:1594-1616 | exactly the opening parentheses open a group, and groups close at closing ones only |
| Scopes.ScopeTree.BuildGroups | src/completion.cpp:1594-1616 | the loop that fills the four fields in place builds that tree |
| Scopes.AncestorIsEnclosure | src/completion.cpp:1147-1155 | the parent walk succeeds exactly when one span encloses the other |
| Scopes.ScopeTree.AncestorOrSelf | src/completion.cpp:1147-1155 | the loop over parents computes that walk |
| Scopes.GroupAtIsGroupOf | src/completion.cpp:1157-1166 | the group for an insertion is the token's own, except before a matched `)`, where it is the group that `)` closes |
| Scopes.ScopeTree.FindGroupAt | src/completion.cpp:1157-1166 | the second stack pass computes that group |
| Shadowing.DepthIsNesting | src/completion.cpp:1585-1592 | of two scopes around a third, the deeper is strictly inside the other |
| Shadowing.InsertKeepsOrder | src/completion.cpp:1242-1253 | adding the next reference keeps the list nearest first with ties in source order |
| Shadowing.VisibleRefs | src/completion.cpp:1242-1253 | the list is exactly the references of enclosing groups, nearest first, ties in source order |
| Shadowing.FindRef | src/completion.cpp:1227-1240 | the loop returns the fold over the references |
| Shadowing.FindRefIsNearest | src/completion.cpp:1227-1240 | that is the earliest of the deepest visible references of the name |
| Shadowing.FindRefIsFirstVisible | src/completion.cpp:1227-1253 | looking a name up gives the first visible reference of that name, and fails only when there is none |
| Columns.RefColumns | src/completion.cpp:1285-1302 | the mutually recursive methods terminate on every query, self-referencing CTEs included, and compute the evaluation with depth limit 6 |
| Columns.CteColumns | src/completion.cpp:1277-1283 | the same, for a CTE with its column aliases |
| Columns.SelectColumns | src/completion.cpp:1304-1355 | the same, for a body's select list |
| Columns.DeriveItem | src/completion.cpp:1357-1426 | the same, for one item: star, qualified star, alias, column |
| SelectItems.NameIsNearest | src/completion.cpp:1437-1443 | a name in an item stands for the nearest reference of that name: the deepest enclosing scope, the first there |
| SelectItems.Star | src/completion.cpp:1365-1370 | `*` gives the columns of the group's own references, in order |
| SelectItems.QualifiedStar | src/completion.cpp:1371-1377 | `t.*` gives the columns of the reference `t` stands for, and none if there is none |
| SelectItems.Aliased | src/completion.cpp:1382-1386 | an item that ends in AS and an identifier gives one column, named by that identifier |
| SelectItems.QualifiedColumn | src/completion.cpp:1387-1419 | a dotted path gives one column, named by its last part, with what the first column of that name in the reference before it says |
| SelectItems.BareColumn | src/completion.cpp:1387-1419 | a bare name gives one column, with what the first of the own references that tells of it says |
| SelectItems.ImplicitAlias | src/completion.cpp:1420-1425 | another expression gives one column named by its last identifier, and none if that is a reserved word or follows a dot or an operator |
| SelectItems.NoColumn | src/completion.cpp:1357-1381 | an item that ends in no identifier and is no star gives none |
| SelectItems.AliasedColumns | src/completion.cpp:1263-1275 | a list of aliases renames the first columns, drops their origin, and adds those it has left |
| SelectItems.DerivedColumns | src/completion.cpp:1285-1302 | a derived table has the aliased columns of its body |
| SelectItems.CteHidesTable | src/completion.cpp:1285-1302 | a lone name stands for the first CTE of that name, whatever the catalog holds |
| SelectItems.TableReference | src/completion.cpp:1285-1302 | any other path has the columns the catalog lists for the relation it finds |
| SelectItems.FunctionColumns | src/completion.cpp:1285-1302 | a function has only the columns its reference names |
| SelectItems.ModifiersPassed | src/completion.cpp:1304-1335 | DISTINCT, DISTINCT ON, ALL and TOP, with or without PERCENT, are passed before a select list, and nothing else is |
| SelectItems.ListStartsBehind | src/completion.cpp:1317-1334 | modifiers are passed one after the other, up to the first token that is none |
| SelectItems.FirstSelect | src/completion.cpp:1311-1316 | a list is read from the first SELECT that the group itself holds |
| SelectItems.ListEnders | src/completion.cpp:1341-1344 | exactly the thirteen listed words end it |
| SelectItems.ItemsInOrder | src/completion.cpp:1336-1354 | its columns are those of its items, one item after the other |
| ColumnMeaning.BodyBoundHides | src/completion.cpp:1304-1355 | an evaluation whose limit leaves room for the bodies entered gives the columns defined without any limit |
| ColumnMeaning.MaxDepthIsExact | src/completion.cpp:1277-1443 | evaluating a reference at limit 6 comes to nothing below the limit if and only if finding its columns enters at most three nested bodies on any path; and then that limit and every larger one give the columns defined without a limit |
| ColumnMeaning.MaxDepthIsExactForCtes | src/completion.cpp:1277-1443 | the same for a CTE |
| NestedBodies.TextLexes | src/completion.cpp:165-296 | the text `SELECT * FROM (... (SELECT a) x) x`, nested to any depth, has the tokens the next two are about, in every dialect |
| NestedBodies.BodyColumns | src/completion.cpp:1285-1355 | of the derived tables of that text, a body has its column exactly when the limit is at least two for each body inside it |
| NestedBodies.FourBodiesExceedTheLimit | src/completion.cpp:1285-1355 | so three is the most: of that text with four, the limit 6 sees no column where 8 sees one |
| SelectLists.NextIsOwn | src/completion.cpp:1319-1341 | from a token of a group itself, jumping over what a `(` opens leads to the group's next own token, and passes none |
| SelectLists.SelectListIsOwn | src/completion.cpp:1304-1341 | on any tokens, balanced or not, the select list scanned by jumping over parentheses is the group's own tokens from its own SELECT on: no nested scope ends it, cuts it or is in it |
| SelectLists.NamesOfItems | src/completion.cpp:1357-1426 | without stars, the column names are those the items spell, whatever references, catalog and depth |
| SelectLists.CteNames | src/completion.cpp:1263-1283 | the names of a CTE over such a body are its own aliases and then the names of the items they leave |
| PgStream.AppendPgRows | src/postgres_connection.cpp:106-131 | a chunk's rows are appended as far as the limit leaves room, and the columns are set once |
| PgStream.Run | src/postgres_connection.cpp:349-410 | the loop computes the step function over the driver's results, and cancels at most once |
| PgStream.OneDelivery | src/postgres_connection.cpp:372-409 | one result set, however it is chunked, adds the statement of the simple form |
| PgStream.StreamingRefinesSimple | src/postgres_connection.cpp:349-410 | any batch in any chunking, with no early stop, gives the simple form's statements: rows, columns, messages and failures |
| PgAnswers.StatementsAnswer | src/postgres_connection.cpp:349-410 | in a run that did not stop, the statements answer the driver's results one for one: success unless it failed, its text for a failure, its count for a command, and for rows their columns, the first of them within the limit cell by cell, and the note when some are left out |
| PgAnswers.ExtractAnswers | src/postgres_connection.cpp:106-179 | the simple form's statement answers its result in the same way |
| PgStream.UnstoppedIsUnstoppable | src/postgres_connection.cpp:384-387 | being allowed to stop changes nothing until a stop happens |
| PgStream.RunIsSimple | src/postgres_connection.cpp:349-410 | so a run that did not stop gives the simple form's statements |
| PgStream.EarlyStopKeepsTheLimit | src/postgres_connection.cpp:380-403 | when the stream ends in an error, past the limit the result is one success with exactly the first rows; before it, the error |
| PgAnswers.StoppedAnswers | src/postgres_connection.cpp:380-403 | a stream that ends in an error is stopped exactly when more rows than the limit came before; then its one statement shows the first rows and says the rest was not fetched, and else it answers the error |
| PgStream.LateCancelChangesNothing | src/postgres_connection.cpp:380-403 | when the cancel comes too late, the statement is that of the whole result |
| PgPath.UnmentionedStays | src/postgres_connection.cpp:442-449 | a batch that succeeds and mentions none of the four words left the path alone |
| PgPath.WordsLookedFor | src/postgres_connection.cpp:443-449 | the test passes exactly where one of the four words stands somewhere in the batch, in any case |
| PgPath.OtherNamesMoveThePath | src/postgres_connection.cpp:442-449 | two commands that move it and mention none of them |
| PgPath.StepKeepsExactly | src/postgres_connection.cpp:427-451 | one step, of a call or of another thread, keeps cache and server agreed exactly when it neither takes a relied-on path back nor is a batch that moves it unmentioned |
| PgPath.RunAgreesExactly | src/postgres_connection.cpp:427-451 | over any run, with catalog queries between any two steps, they agree in every state exactly when every step is such |
| PgSends.BatchesRunUnderTheirSchema | src/postgres_connection.cpp:427-451 | in any run of any batches, a batch is sent under the schema asked for if and only if no path the client relied on was lost since the cache was last made true or unknown |
| PgPath.CatalogFailureInTxGoesStale | src/postgres_connection.cpp:427-451 | a run after which a batch for one schema is sent on the default path |
| PgPath.OwnSetFailureGoesStale | src/postgres_connection.cpp:432-441 | the same when the client's own SET for another schema is what fails |
| PgPath.AbortGoesStale | src/postgres_connection.cpp:442-449 | the same when a batch ends the transaction by `ABORT` |
| PgPath.OrdinaryIsSafe | src/postgres_connection.cpp:442-449 | a batch spelled as SQL spells its commands, without `ABORT` or `SET SCHEMA`, keeps the agreement |
| PgSends.NothingIsSentAgain | src/postgres_connection.cpp:432-449 | over any run, once a batch has failed and left its transaction aborted, no call sends its batch again, not even one that would end the transaction |
| PgPath.PostgresDatabase.RunBatch | src/postgres_connection.cpp:292-330 | connecting resets the cache to the new session's default, and a batch runs only on a connection |
| PgPath.PostgresDatabase.ExecuteIn | src/postgres_connection.cpp:427-451 | undisturbed, the method is the sequence of those steps, a failed SET sends nothing, and where cache and server agreed they agree after it if and only if each of its steps is safe |
| IndentTree.PreorderIsInput | src/explain.cpp:230-243 | the tree read in preorder is the list of lines |
| IndentTree.ParentIsNearestShallower | src/explain.cpp:230-243 | each node's parent is the nearest earlier line of smaller depth |
| IndentTree.PrintThenBuild | src/explain.cpp:230-243 | building the indented printing of any forest, at any positive indent, gives that forest |
| IndentStack.OneMoreLine | src/explain.cpp:230-243 | a line more goes under the last spine node of smaller depth, and nowhere else |
| IndentStack.SpineAfterPut | src/explain.cpp:230-243 | pushing a child keeps every pointer at or above its parent valid and on the same node |
| IndentStack.NextStack | src/explain.cpp:234-241 | after a line the stack is again the spine of the tree, and no pointer it kept was invalidated |
| IndentStack.PopTo | src/explain.cpp:235-237 | the pop loop never pops the sentinel |
| IndentStack.BuildTree | src/explain.cpp:225-245 | the loop gives the tree of nearest shallower lines: none only for no lines, every line once in order, below a node of its own exactly when a later line is no deeper than all before it, and for an indented printing the forest printed |
| RowTree.ChildIsLater | src/explain.cpp:273-287 | the rows with a node's id as parent are those that hang under it, and come later, so the recursion ends |
| RowTree.EndsExactly | src/explain.cpp:275-287 | for any ids, the recursion ends if and only if no id it comes to from the top leads back to itself |
| RowTree.EndsWithinRows | src/explain.cpp:275-287 | and then it goes no deeper than there are rows |
| RowTree.TopIdNeverEnds | src/explain.cpp:275-287 | two rows on which it never ends |
| RowTree.WellFormedEnds | src/explain.cpp:273-287 | with distinct ids that are not 0, and parents before their children, it ends |
| RowTree.Build | src/explain.cpp:275-287 | wherever it ends, the recursive loop returns the children in row order and appends their indented text |
| RowTree.WellFormedTree | src/explain.cpp:275-287 | on such rows that is the tree in which each row hangs under the row with its parent's id |
| RowTree.TreeHoldsRows | src/explain.cpp:275-287 | the tree's preorder is the preorder of the rows |
| RowTree.CountRow | src/explain.cpp:275-287 | a row is listed once below its ancestors and not at all elsewhere |
| RowTree.EveryRowOnce | src/explain.cpp:273-287 | every row is in the tree exactly once |
| PlanText.TextReadsBack | src/explain.cpp:278-281 | the raw text, split at line breaks and read by leading spaces, gives the tree back if and only if no detail holds a line break or starts with a space |
| PlanText.LeadingSpaceIsLost | src/explain.cpp:278-281 | a row whose detail starts with a space reads back as another tree |
| RowTree.ParseRows | src/explain.cpp:269-297 | wherever the recursion ends, the result is the only top node, a "QUERY PLAN" node over several, or nothing without top rows, and the raw text is theirs |
| SelfTimes.FillSelfTimes | src/explain.cpp:43-52 | the loop over children computes the filled tree |
| SelfTimes.FilledExactly | src/explain.cpp:43-52 | exactly that is filled in: for a timed node what its children left of its total, 0 if they took more, and nothing else changes |
| SelfTimes.FilledIsNonNegative | src/explain.cpp:43-52 | every self time is at least 0 |
| SelfTimes.SelfTimesCover | src/explain.cpp:43-52 | self times of a forest add up to at least the totals of its top nodes |
| SelfTimes.SelfTimesConserve | src/explain.cpp:43-52 | they add up to exactly those totals if and only if no node's children took more than it did |
| MssqlCancel.StepKeeps | src/mssql_connection.cpp:667-793 | every step of any thread keeps the whole invariant |
| MssqlCancel.CounterCounts | src/mssql_connection.cpp:776-789 | in every reachable state the counter is the number of calls between increment and decrement |
| MssqlCancel.OnlyHolderDrives | src/mssql_connection.cpp:774-793 | in every reachable state a thread that drives the connection holds the mutex, and nobody else is inside |
| MssqlCancel.FlagExactly | src/mssql_connection.cpp:674-680 | after any run the flag is up exactly when a cancel wrote it after the last clear, so also with no call or cancel in flight |
| MssqlCancel.StaysVisible | src/mssql_connection.cpp:784-788 | a flag that is up while a call holds the mutex before its clear stays up until that call's own clear |
| MssqlCancel.DoomedEndsCancelled | src/mssql_connection.cpp:148-208 | once the flag is up while a call still has an answer to read, the call can only end with "Query cancelled" |
| MssqlCancel.AtMostOneMoreRow | src/mssql_connection.cpp:158-170 | after the flag is up a call asks for at most one more row, and only if it was already asking |
| MssqlCancel.FinishedIsHonest | src/mssql_connection.cpp:178-208 | under every interleaving a finished call has all result sets within the limit, or those before one failure, if and only if no row fetch failed, unmarked, with rows left and none yet past the limit |
| MssqlCancel.ShownTells | src/mssql_connection.cpp:143-181 | a result set within the limit is told by its columns, its first rows, as many as the limit allows, and whether there were more; a statement without columns by its count, unless negative |
| MssqlCancel.FailedFetchReadsAsSuccess | src/mssql_connection.cpp:156-170 | a row fetch that fails unmarked ends its table as a success with the rows so far, which loses something exactly when rows were left and none was past the limit |
| MssqlRuns.LostRowReadsAsSuccess | src/mssql_connection.cpp:156-170 | a run in which a call ends without an error and without a row |
| MssqlCancel.OneWriteStopsOneCall | src/mssql_connection.cpp:674-680 | between two calls that find the flag up there is a write, so one cancel stops at most one call |
| MssqlAim.FindingStops | src/mssql_connection.cpp:51-54 | a call that finds the flag up can only end cancelled, and only by finding it does a call get "Query cancelled" |
| MssqlAim.AimedExactly | src/mssql_connection.cpp:674-680 | in a state, some call can go on by itself to find a flag raised only for others if and only if the one that drives the connection stands under such a flag |
| MssqlAim.CancelsStopTheirOwn | src/mssql_connection.cpp:674-680 | over a run, no call finds, or could go on to find, a flag whose cancels all asked when it was not in flight, if and only if each cancel writes while none but calls in flight when it asked drives the connection, and none but those takes the mutex under its flag |
| MssqlAim.ClearerExactly | src/mssql_connection.cpp:674-680 | the flag never stays up past the last call in flight if and only if every write lands before that call's clear |
| MssqlAim.WriteStopsExactly | src/mssql_connection.cpp:784-788 | from a write nobody was stopped before to the next clear, some call finds the flag if and only if the call that clears it ends cancelled; otherwise the clear swallows the write |
| MssqlAim.WriteReachesAWaiter | src/mssql_connection.cpp:784-788 | a call that waits finds the flag of a write when its turn comes if and only if no clear came between |
| MssqlRuns.CancelIsSwallowed | src/mssql_connection.cpp:784-788 | a run in which a cancel meant for a running and a waiting call stops neither |
| MssqlRuns.LateCancelLeavesTheFlag | src/mssql_connection.cpp:675-676 | a run with one call and one cancel that leaves the flag up with nobody in flight |
| MssqlRuns.LateCancelReachesAWaiter | src/mssql_connection.cpp:675-676 | and one that leaves it up for a waiting call that began after the cancel asked |
| MssqlRuns.LateCancelStopsAWaiter | src/mssql_connection.cpp:675-676 | that call, once connected, can only end cancelled, if it asks for anything |
| MssqlAim.LeftUpDoomsTheNext | src/mssql_connection.cpp:675-676 | in any state with the mutex free and the flag up, the next call to begin that asks for anything can only end cancelled once the connection comes up, and no cancel was meant for it |

## Left out

- The drivers, the servers' SQL, catalog loading and all other backends: what they answer is a parameter or a step.
- `detectContext` and which items are offered where: heuristics over keyword lists, with no specification of their own;
  a completion takes its offers as given.
- `collectCtes` and `parseRelationList`: references and CTEs are taken as given. The second refuses some unquoted words
  that quoting leaves bare, so the path theorem is about tokens and lookup, not about a FROM clause.
- Keyword, function and reserved-word tables: the reserved words are any set of names.
- `resolveIdentifierAt`, which asks the same look-ups what stands at an offset, and `src/syntax.cpp`.
- Ordering by signed bytes: characters are compared by code, which differs from the code for non-ASCII labels.
- JSON, regular expressions and number conversion in plan texts: the builders start from parsed records.
- Phase timings, and message wording except row counts and limits.
- In-place filling of self times and of plan nodes by `std::move`: trees are values; pointers into growing vectors are paths.
- The library's stable sort, set and search functions are functions here.
- RowTree.ParseRows: says nothing of rows on which the recursion never ends; there the source overflows its stack.
- Completing.OfferedKeysDiffer: one way; most owners that hold the separator byte give no two items one key.
- PgPath.RunAgreesExactly: savepoints, `SET LOCAL` and lost connections are not modelled.
- PgStream.StreamingRefinesSimple: failures carry text, as the loop drops a failure without one.
- LexForms.ExponentReads: one signed exponent to a number; a number with several is covered by `Tokenizer.Tokenize` alone.
- LexForms.StringReads: not an open string whose last byte is a lone backslash, which stands for itself.
- PRINT output, the thread-local error buffers and `dbcancel`: they touch no shared state of the protocol.
- Fairness of the mutex, and a PostgreSQL cancel that reaches a later query on the wire.
