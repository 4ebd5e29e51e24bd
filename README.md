# randomtable — a Dafny model

This project models the core of `makemea`, a generator of random results
from tables written in Markdown. Tables live in a tree under lower-cased,
`/`-separated paths. There are three kinds of table:

- a **random table** holds a list of items and draws one uniformly;
- a **rolling table** maps dice totals to items and rolls its dice
  (`2d4`, `1d6`, ...) to pick one;
- a **text table** holds one block of text.

A drawn item may be a template. Its `lookup` calls draw from other tables,
by absolute path or by a path relative to the caller (`./x`). Its `roll`
calls roll dice. Lookups are capped at 100 per top-level request, so a table
that refers to itself terminates.

The Markdown renderer turns a document into tables:

- headings open and close namespace levels;
- a table header creates one table per column, or a rolling table when one
  column holds a dice expression;
- rows add items;
- an emphasised header cell hides its table;
- a fenced code block with a title becomes a text table.

Modules, one per source file:

| module | file | models |
|---|---|---|
| `Util` | `util.dfy` | `util/util.go`: `DeDupe`, `Difference` |
| `RandomTables` | `table.dfy` | `randomtable/table.go` |
| `TextTables` | `text_table.dfy` | `randomtable/text_table.go` |
| `RollingTables` | `rolling_table.dfy` | `randomtable/rolling_table.go`: dice parsing, `AddItem`, `Validate` |
| `Formatters` | `formatter.dfy` | `randomtable/formatter.go` |
| `Registry` | `registry.dfy` | the path trie of `randomtable/tree.go` and the `Table` interface |
| `Trees` | `tree.dfy` | `randomtable/tree.go`: storage, listing, item resolution |
| `Renderers` | `renderer.dfy` | `randomtable/renderer.go` |
| `Strings`, `Wrappers` | `strings.dfy`, `wrappers.dfy` | string helpers, `Option`/`Result` |

Modelling choices:

- **Classes for mutable state.** Each table kind is a class whose methods
  update its fields in place. The trie is the class `Registry.TableStore`,
  holding `entries: map<string, Node>`. A `Trees.Tree` holds it through a
  `const` reference, so copies of a tree share one store, as Go value
  copies of `Tree` share the `*trie.PathTrie` pointer.
  `TableStore.Contents()` abstracts the store to the values of its tables.
  The resolution semantics is stated over that abstraction by the functions
  `GetItemSpec`, `RenderItemSpec`, `ExecSpec`, `StepSpec` and `LookupSpec`.
  The methods of `Tree` are proved against them.
- **Randomness and templates are parameters.** `Env.draw(k)` is the k-th
  random number of a request:
  - a random table uses `draw(k) % n` as its index;
  - a rolling table uses `draw(k)` as its total;
  - a `roll` call of a valid dice expression returns `draw(k)`.

  `Env.parse` stands for Go's `text/template` parser. It gives a sequence
  of literal, `lookup`, `roll` and halting segments, or a parse error.
- **Dice expressions** are modelled as the whole text being
  `[count]d<sides>` in decimal digits. `roll` and the table header accept
  an absent count (`d6`). `parseDiceString` then fails, as
  `strconv.ParseInt("")` does. The `dice` library's full grammar is not
  modelled.

## Model

| member | source | states |
|---|---|---|
| Util.DeDupe | util/util.go:4-14 | the result is exactly the first occurrence of each string of the input, in input order (`FirstOccurrences`) |
| Util.FirstOccurrencesElements | util/util.go:4-14 | de-duplication keeps every string of the input and adds none |
| Util.FirstOccurrencesNoDuplicates | util/util.go:4-14 | no string occurs twice in the de-duplicated list |
| Util.FirstOccurrencesOrdered | util/util.go:4-14 | kept strings appear in the order of their first occurrence in the input |
| Util.DeDupeExample | util/util_test.go:5-23 | `["one","one","two","three"]` de-duplicates to `["one","two","three"]` |
| Util.Difference | util/util.go:17-30 | the result is the elements of `a` not in `b`, in `a`'s order, with `a`'s repetitions kept |
| Util.WithoutElements | util/util.go:17-30 | `x` is in the difference iff `x` is in `a` and not in `b`; the difference is no longer than `a` |
| Util.WithoutAppend | util/util.go:24-28 | the difference of a concatenation is the concatenation of the differences |
| Util.WithoutNoDuplicates | util/util.go:17-30 | the difference of a list without repetitions has no repetitions |
| Util.WithoutCovered | util/util.go:17-30 | when every element of `a` is in `b` the difference is empty |
| Util.DifferenceExample | util/util_test.go:25-32 | `[1,2,3]` minus `[1,2]` is `[3]` |
| RandomTables.RandomTable.constructor | randomtable/table.go:34-42 | a new random table has no items |
| RandomTables.RandomTable.GetItem | randomtable/table.go:21-24 | the item drawn is the item at the drawn index, so an item of the table |
| RandomTables.RandomTable.AddItem | randomtable/table.go:26-28 | the item is appended; positions are ignored |
| RandomTables.RandomTable.Validate | randomtable/table.go:30-32 | a random table reports no errors |
| RandomTables.SingleItemTable | randomtable/table_test.go:6-10 | a table holding only `item` always draws `item` |
| TextTables.TextTable.constructor | randomtable/text_table.go:33-36 | a new text table holds the empty text |
| TextTables.TextTable.GetItem | randomtable/text_table.go:11-13 | the item is the whole text |
| TextTables.TextTable.AddItem | randomtable/text_table.go:15-17 | the item is appended to the text; positions are ignored |
| TextTables.TextTable.Validate | randomtable/text_table.go:23-25 | checking changes nothing |
| TextTables.TextTable.AllItems | randomtable/text_table.go:19-21 | all items are the one-element list holding the text |
| RollingTables.MatchDiceSound | randomtable/rolling_table.go:79-81 | a match splits the text at its one `d` into an optional run of digits and at least one digit |
| RollingTables.MatchDiceDigits | randomtable/rolling_table.go:79-81 | digits, `d`, digits is matched, yielding exactly the two digit groups |
| RollingTables.MatchDiceComplete | randomtable/rolling_table.go:79-81 | every text of the form digits, `d`, digits is matched, with a non-empty count |
| RollingTables.ParseDiceString | randomtable/rolling_table.go:79-94 | parsing succeeds iff the text is digits, `d`, digits (count present), and then gives the two decimal values; a failure is a parse error naming the text |
| RollingTables.ParseDiceRoundTrip | randomtable/rolling_table.go:79-94 | parsing `"<n>d<m>"` gives back count `n` and sides `m` |
| RollingTables.RollRangeElements | randomtable/rolling_table.go:55-59 | the possible totals are exactly `min..max`, ascending, each once, `max-min+1` of them (none when `max < min`) |
| RollingTables.AllRolls | randomtable/rolling_table.go:55-59 | the loop builds exactly the ascending list `min..max` |
| RollingTables.OutsideAll | randomtable/rolling_table.go:47-53 | one "outside of the dice range" error per key below the minimum or above the maximum, each once; the key list holds exactly the table's keys |
| RollingTables.NotRollableAll | randomtable/rolling_table.go:61-65 | one "not rollable" error per missing total, in order |
| RollingTables.OutsideExactlyOnce | randomtable/rolling_table.go:47-53 | a validation report names key `k` as out of range iff `k` is a key the dice cannot reach |
| RollingTables.NotRollableExactlyOnce | randomtable/rolling_table.go:55-65 | total `x` is reported "not rollable" iff it can be rolled and has no item, and each such total is reported once |
| RollingTables.ExactCoverReportsNothing | randomtable/rolling_table.go:36-68 | when the keys are exactly the possible totals, validation reports only a dice-parse error, and nothing for well-formed dice |
| RollingTables.PutAllSpec | randomtable/rolling_table.go:26-34 | after adding, every given position maps to the item; other keys keep their items; the key set grows by exactly the positions |
| RollingTables.NoOverwritesWhenFresh | randomtable/rolling_table.go:27-30 | distinct positions that are not yet keys produce no duplicate warning |
| RollingTables.OverwritesComplete | randomtable/rolling_table.go:27-30 | a position that was already a key, or came earlier in the same call, is warned about |
| RollingTables.OverwritesSound | randomtable/rolling_table.go:27-30 | every warning is for a position that was already a key or came earlier in the same call |
| RollingTables.OverwritesExactly | randomtable/rolling_table.go:27-30 | a total is warned about iff some position holding it was already a key or came earlier in the same call |
| RollingTables.OverwritesArePositions | randomtable/rolling_table.go:27-30 | every duplicate warning names a given position, and there are no more warnings than positions |
| RollingTables.HelloForEveryRoll | randomtable/rolling_table_test.go:8-9 | a `2d4` table holding "Hello" on 2..8 gives "Hello" for every total |
| RollingTables.AllRollsLengthNegative | randomtable/rolling_table.go:56 | for `"2d0"` the total list is asked to have length -1 |
| RollingTables.RollingTable.constructor | randomtable/rolling_table.go:70-77 | a new rolling table has no items and keeps the dice expression |
| RollingTables.RollingTable.GetItem | randomtable/rolling_table.go:20-24 | the item is the one stored for the rolled total, or "" when none is |
| RollingTables.RollingTable.AddItem | randomtable/rolling_table.go:26-34 | every position is set to the item; the warnings are `Overwrites`: exactly the positions that were already keys or were repeated earlier in the same call |
| RollingTables.RollingTable.Validate | randomtable/rolling_table.go:37-68 | the report is the dice-parse error, then each unreachable key once, then each missing possible total once in ascending order |
| Formatters.Format | randomtable/formatter.go:15-25 | the string formatter is the identity; the HTML one wraps the input in a `RandomElement` tag naming the caller, adding 40 characters |
| Formatters.HtmlRoundTrip | randomtable/formatter.go:23-25 | for a caller without a quote, the input and caller can be read back from the HTML output |
| Formatters.FormatParsed | randomtable/formatter.go:23-25 | every string the reader accepts is the HTML output of what it reads |
| Formatters.HtmlExample | randomtable/formatter_test.go:5-12 | `("one","two")` formats to `<RandomElement table='two'>one</RandomElement>` |
| Registry.TableStore.constructor | randomtable/tree.go:25 | a new store is empty |
| Registry.TableStore.Put | randomtable/tree.go:34 | the node is stored under the key, and the abstract contents change at that key only |
| Registry.AddItemTo | randomtable/renderer.go:160-184 | adding through the table interface changes the table's value as that kind's `AddItem` does |
| Registry.FindTable | randomtable/tree.go:38-51 | lookup succeeds only for a stored random or rolling table under the lower-cased name; otherwise the error is "not found" for a missing path or "unknown table type" |
| Registry.FindRef | randomtable/tree.go:38-51 | the same, on the stored references |
| Registry.FindAfterPut | randomtable/tree.go:32-51 | a table added under a name is found under any spelling with the same lower case |
| Registry.FindOtherAfterPut | randomtable/tree.go:32-51 | adding under one name does not change what another name finds |
| Registry.FindIgnoresCase | randomtable/tree.go:39 | a name and its lower-cased form find the same thing |
| Trees.Tree.constructor | randomtable/tree.go:23-29 | a new tree has an empty store, lookup depth 0 and no formatter |
| Trees.Tree.WithHtmlFormatter | randomtable/formatter.go:27-30 | a copy sharing the store and depth, with the HTML formatter |
| Trees.Tree.WithStringFormatter | randomtable/formatter.go:32-35 | a copy sharing the store and depth, with the string formatter |
| Trees.Tree.AddTable | randomtable/tree.go:32-35 | the table is stored under the lower-cased name, and the contents change there only |
| Trees.Tree.GetTable | randomtable/tree.go:38-51 | success returns the reference stored under the lower-cased name; the outcome agrees with `FindTable` on the contents |
| Trees.Tree.ListTables | randomtable/tree.go:54-64 | the result holds exactly the visible stored paths starting with the prefix, each once, ascending |
| Trees.Tree.GetItem | randomtable/tree.go:68-74 | the result is the resolution of the path from the current depth, the depth is reset to 0, and the formatter is unchanged |
| Trees.Tree.getItem | randomtable/tree.go:123-130 | item, error and new depth are those of `GetItemSpec`; the stored tables are unchanged |
| Trees.Tree.renderItem | randomtable/tree.go:78-91 | the output is that of `RenderItemSpec`; the stored tables are unchanged |
| Trees.Tree.step | randomtable/tree.go:79-82 | one template action evaluates as `StepSpec` |
| Trees.Tree.lookup | randomtable/tree.go:95-112 | a lookup evaluates as `LookupSpec` |
| Trees.Tree.roll | randomtable/tree.go:115-121 | a valid dice expression gives the drawn total in decimal; anything else is returned unchanged |
| Trees.GetItemSpec | randomtable/tree.go:123-130 | resolution never lowers the depth nor takes it past 100 from below; an error comes with empty text |
| Trees.RenderItemSpec | randomtable/tree.go:78-91 | the same bounds; a parse error comes with empty text |
| Trees.ExecSpec | randomtable/tree.go:87-89 | execution keeps the depth bounds; it stops only at a failing action or at a nested draw from an empty list table, keeping the output before it |
| Trees.StepSpec | randomtable/tree.go:79-82 | a failing action stops the template with no output and no draw; only it and a nested empty draw stop a template |
| Trees.LookupSpec | randomtable/tree.go:95-112 | a lookup keeps the depth within the limit; its only failure is a nested draw from an empty list table, with no output |
| Trees.EmptyLookupStops | randomtable/tree.go:107-108 | below the limit, a lookup of an empty list table counts one level, takes no draw and stops the calling template with the "empty table" error |
| Trees.EmptyLookupKeepsPrefix | randomtable/tree.go:78-91 | `A{{lookup "t"}}B` with `t` an empty list table renders `A`, with no error |
| Trees.RollSpec | randomtable/tree.go:115-121 | valid dice give the decimal of the next draw and consume it; other text is returned without a draw |
| Trees.Draw | randomtable/tree.go:124-128 | a non-empty random table yields one of its items; an empty one gives an "empty table" error; a rolling table yields the item for the total or "" |
| Trees.EveryItemDrawable | randomtable/table.go:21-24 | every item of a random table is drawn for some draw |
| Trees.RelativeTarget | randomtable/tree.go:98-102 | a path not starting with `./` is used as it is; `./rest` becomes the caller's directory (all before its last `/`, or "" without one), then `/`, then `rest` |
| Trees.CallerDirectory | randomtable/tree.go:99-100 | joining all but the last `/`-segment of the caller gives its directory |
| Trees.RelativeRewrite | randomtable/tree.go:98-102 | `./rest` becomes the caller's directory, then `/`, then `rest` |
| Trees.RelativeSibling | randomtable/tree.go:98-102 | from caller `d1/.../dn/t`, `./rest` names `d1/.../dn/rest` |
| Trees.RelativeFromTopLevel | randomtable/tree.go:98-102 | from a top-level caller, `./rest` becomes `/rest` |
| Trees.RelativeExample | randomtable/e2e_test.go:112-140 | from `nested/lookup`, `./table` names `nested/table` |
| Trees.MissingTableIsNotFound | randomtable/tree.go:40-43 | resolving a missing path gives a "not found" error naming the lower-cased path, with no draw |
| Trees.TextTableRejected | randomtable/tree.go:44-50 | resolving a text table gives "unknown table type" |
| Trees.LookupAtLimit | randomtable/tree.go:104-106 | at depth 100 a lookup returns its (rewritten) argument and draws nothing |
| Trees.FailedLookupIsEmpty | randomtable/tree.go:107-109 | below the limit, a lookup of a missing or unusable table yields "" and still counts one level |
| Trees.RollFallback | randomtable/tree.go:115-119 | a `roll` of text that is not dice renders that text |
| Trees.PlainItem | randomtable/tree.go:78-91 | an item without template actions renders as itself |
| Trees.ExecAppend | randomtable/tree.go:87-89 | executing two action lists in a row equals executing their concatenation; the second runs only if the first did not stop |
| Trees.SelfReferenceStops | randomtable/tree.go:95-112 | a table whose only item looks itself up resolves to its own path after exactly `100 - depth` nested lookups |
| Renderers.Renderer.constructor | randomtable/renderer.go:54-64 | a new renderer has an empty namespace, depth 0 and no current table names |
| Renderers.Renderer.Push | randomtable/renderer.go:28-31 | the name is appended to the namespace and the depth grows by one |
| Renderers.Renderer.Pop | randomtable/renderer.go:34-39 | the innermost level is removed when there is one; otherwise nothing changes |
| Renderers.Renderer.Namespace | randomtable/renderer.go:41-43 | empty for the empty namespace; a single level is lower-cased with spaces removed |
| Renderers.Renderer.Name | randomtable/renderer.go:46-52 | without a namespace the name is unchanged; otherwise it is the namespace, `/`, and the normalised name |
| Renderers.Qualify | randomtable/renderer.go:46-52 | the same on explicit values |
| Renderers.QualifyExamples | randomtable/renderer_test.go:19-33 | `test` in namespace `test` is `test/test`; with no namespace it is `test` |
| Renderers.NameExample | randomtable/renderer_test.go:19-33 | the renderer's namespace is "", then `test/test` after a push, then `test` after the pop |
| Renderers.HeaderNames | randomtable/renderer.go:75-87 | one name per header cell, each the roll marker or the qualified cell text |
| Renderers.DiceColumn | randomtable/renderer.go:88-103 | "" when no cell is a dice expression; otherwise a cell that is one |
| Renderers.RollColumn | randomtable/renderer.go:123-129 | the index of the last roll column, or -1 when there is none |
| Renderers.FindRollColumn | randomtable/renderer.go:123-129 | the loop finds `RollColumn` |
| Renderers.RowKeysSingle | randomtable/renderer.go:166-174 | a single number in the roll cell keys the row to that total |
| Renderers.RowKeysRange | randomtable/renderer.go:175-184 | `a-b` keys the row to every total from `a` to `b` inclusive, ascending |
| Renderers.RowKeys | randomtable/renderer.go:164-184 | the totals of a roll cell are consecutive non-negative numbers, ascending |
| Renderers.RowKeysShape | randomtable/renderer.go:164-184 | a roll cell that gives any total is one number or two numbers joined by a single `-`, so it holds only digits and `-` |
| Renderers.HiddenTitle | randomtable/renderer.go:238-242 | a title is hidden iff it starts and ends with `_`; a hidden title is the bare name between them |
| Renderers.HiddenTitleNamed | randomtable/renderer.go:238-242 | `_x_` is the hidden name `x` |
| Renderers.AddEmptyAllKeys | randomtable/renderer.go:104-117 | a header adds exactly the lower-cased paths of its columns but the dice column |
| Renderers.AddEmptyAllStep | randomtable/renderer.go:104-117 | one more header column adds its empty table, unless it is the dice column |
| Renderers.AddEmptyAllSpec | randomtable/renderer.go:104-117 | after a header each non-roll column has a new empty visible table; other paths keep their tables; no other paths appear |
| Renderers.CellCalls | randomtable/renderer.go:160-184 | a cell adds its text once without a roll column, else once per total of the roll cell |
| Renderers.PlanUpToOutcome | randomtable/renderer.go:148-186 | the first `x` cells stop the row iff a column among them, other than the roll column, has no table; the error names such a column |
| Renderers.RowPlanOutcome | randomtable/renderer.go:148-186 | a row stops iff some non-roll column has no table, and the error names one that has none |
| Renderers.RowPlanComplete | randomtable/renderer.go:148-186 | when every non-roll column's table exists the row does not stop, and its calls are each column's own calls in column order, none for the roll column |
| Renderers.PlanStops | randomtable/renderer.go:154-159 | once a column's table is missing, later columns add nothing |
| Renderers.AddCell | randomtable/renderer.go:160-184 | performing a cell's adds leaves each table as its value with those adds applied |
| Renderers.Renderer.RenderHeading | randomtable/renderer.go:192-203 | a level-`n` heading keeps the first `n-1` levels of the namespace and then pushes its text |
| Renderers.Renderer.RenderTableHeader | randomtable/renderer.go:88-120 | the current names are the header names; the store gains the empty tables of `AddEmptyAll`, each a fresh object, no two the same, every other path keeping its node |
| Renderers.Renderer.NameColumns | randomtable/renderer.go:88-103 | computes the header names and the dice column |
| Renderers.Renderer.AddEmptyTable | randomtable/renderer.go:109-116 | one empty, visible table of the right kind, a fresh object unlike every stored one, is stored under the lower-cased name; other paths keep their nodes |
| Renderers.Renderer.CreateTables | randomtable/renderer.go:104-117 | the store becomes `AddEmptyAll` of the old store; the new column tables are fresh, pairwise distinct objects, and every other path keeps its node |
| Renderers.Renderer.AddColumnTable | randomtable/renderer.go:109-116 | a column's new table joins those made so far: fresh, distinct from them, the others unchanged |
| Renderers.Renderer.RenderTableRow | randomtable/renderer.go:121-190 | the error and every table's new contents are those of the row plan: cells in column order, stopping at the first missing table |
| Renderers.Renderer.AddColumns | randomtable/renderer.go:148-186 | the column loop performs exactly the row plan |
| Renderers.Renderer.AddColumn | randomtable/renderer.go:149-185 | one column extends the plan by one step |
| Renderers.Renderer.RenderEmphasis | randomtable/renderer.go:205-224 | an emphasised name's table is stored again, hidden, under the qualified name; a missing table leaves the store unchanged and reports the error |
| Renderers.Renderer.RenderFencedCodeBlock | randomtable/renderer.go:226-254 | an untitled block changes nothing; a titled one stores a text table of the concatenated lines under the qualified name, hidden iff the title is `_x_` |
| Renderers.Renderer.AddTextTable | randomtable/renderer.go:234-250 | a new text table holding the text is stored under the lower-cased name |
| Renderers.PlacesCastleName | randomtable/e2e_test.go:55-72 | name `Name` in namespace `Places`, `Castle` qualifies to `places/castle/name` |
| Renderers.HeadingExample | randomtable/e2e_test.go:55-72 | headings `# People`, `# Places`, `## Castle` and then column `Name` give `places/castle/name` |

## Left out

- Markdown parsing (goldmark) is not modelled. The renderer's methods take
  the already extracted heading level and text, header and row cell texts,
  emphasis text, and code-block title and lines.
- `text/template` is not modelled. `Env.parse` stands for its parser. The
  template data argument and the rendering of anything other than `lookup`
  and `roll` actions are not modelled.
- Randomness and clocks (`rand`, `time.Now` seeds, the `dice` library's
  roller) are replaced by the `Env.draw` sequence. Seeds are not modelled.
- Logging (`logrus` warnings) is not modelled; `RollingTables.RollingTable.AddItem`
  returns the duplicate positions it would warn about.
- `multierror` is modelled as a sequence of error values.
- `renderLink` (`randomtable/renderer.go:256-271`) is not modelled. It calls
  `Tree.AddLink`, which does not exist in `randomtable/tree.go`.
- `RegisterFuncs`, `GetTable(tablewriter)` of `text_table.go` and the table
  printing helpers are display code and are not modelled.
- Trees.Tree.ListTables: `randomtable/tree.go:54-64` as written does not
  check the hidden flag. The model excludes hidden tables, as the listing
  test `randomtable/e2e_test.go:198-236` expects and as the renderer's
  hidden flag intends. The model fixes the order as ascending; the trie's
  walk order is not specified.
- The hidden flag: `randomtable/tree.go` as written stores bare tables, with
  a two-argument `AddTable`. The renderer passes a third `hidden` argument
  and sets `Hidden` on what `GetTable` returns. The model stores a node of
  (table, hidden), following the renderer.
- Trees.Tree.GetTable rejects text tables as `randomtable/tree.go:44-50`
  does. The text-table test at `randomtable/e2e_test.go:141-149` expects a
  text table to resolve; the model follows the code.
- Trees.Draw: drawing from an empty random table panics in Go
  (`rand.Intn(0)`). At the top level (`Tree.GetItem`) that panic is not
  caught, and the model returns an "empty table" error instead. Inside a
  `lookup`, the template engine turns the panic into an execution error
  that stops the calling template. The model follows that: the template
  keeps its output so far, and no draw is counted. That the engine
  recovers panics of template functions comes from Go's `text/template`,
  which is not part of this model.
  `RandomTables.RandomTable.GetItem` takes the drawn index as a parameter
  and requires it to be in range.
- RollingTables.MatchDice: dice are recognised only when the whole text
  is `[count]d<sides>` in decimal digits. The `dice` library's grammar
  also takes modifiers such as `1d6+2`. In the model, `{{roll "1d6+2"}}`
  renders `1d6+2` unchanged and draws nothing, and a header cell `1d6+2`
  is a plain column, not the dice column. The members that depend on this
  narrower grammar are `RollingTables.IsDiceSpec`,
  `RollingTables.ParseDiceString`, `Trees.RollSpec`, `Trees.Tree.roll`,
  `Renderers.HeaderName`, `Renderers.HeaderNames` and
  `Renderers.DiceColumn`.
- RollingTables.ParseDiceString: when nothing matches, Go indexes past
  the empty match list and panics. The model returns a parse error, and
  `MinRoll`/`MaxRoll` are then 0 as Go's zero values are. Integer overflow
  in `strconv.ParseInt`/`Atoi` is not modelled.
- Strings.Lower: only ASCII `A`-`Z` are folded. Go's `strings.ToLower`
  (`randomtable/tree.go:33,39`, `randomtable/renderer.go:42,51`) also
  folds non-ASCII letters. So `Registry.FindIgnoresCase`,
  `Registry.FindAfterPut`, `Trees.Tree.AddTable`, `Trees.Tree.GetTable`
  and the renderer's qualified names treat two spellings differing only
  in a non-ASCII letter's case as different paths, where Go treats them
  as the same.
- Renderers.RowKeysSingle: a row total too large for `strconv.Atoi`
  is an error in Go and is not modelled; digits give unbounded naturals.
- The `lookup` action takes one argument, as in `randomtable/tree.go:95-112`.
  The counted form `lookup "t1" 2` of `randomtable/e2e_test.go:151-165` is
  not supported by that code. The model treats an action it cannot run as
  a halting segment that ends execution.
- The formatter is stored by `WithHtmlFormatter`/`WithStringFormatter`, but
  the resolver in `randomtable/tree.go` never applies it. The model does
  the same; `Formatters.Format` is modelled on its own.
- Trees.Tree.GetItem: `lookupDepth` counts every lookup of one
  top-level request and is never decremented, as in the source. The limit
  is therefore 100 lookups per request, not a nesting depth.
- Concurrency: the tree is not safe for concurrent use in Go either. The
  model is sequential.
- `difference` in `randomtable/rolling_table.go:96-109` is the same
  function as `util.Difference`. Both are modelled by `Util.Difference`.

## Findings

| source | as written | input that shows it | evidently intended | confidence | as-written member | corrected member |
|---|---|---|---|---|---|---|
| randomtable/rolling_table.go:56 | the total list is made with length `maxRoll-minRoll+1` | dice `"2d0"`: count 2 and sides 0 give min 2, max 0, length -1, so `make` panics | no possible totals, an empty list | not executed | RollingTables.AllRollsLengthNegative | RollingTables.AllRolls |
