# Devville.Helpers batch encoder and string helpers in Dafny

This project models two parts of Devville.Helpers. The first is the SharePoint
`ProcessBatchData` encoder. It has three layers:

- `BatchDataColumn` renders one `<SetVar Name="urn:schemas-microsoft-com:office:office#…">` field.
- `BatchDataMethod` renders one `<Method>` block. That block holds the list id, the `Cmd` verb, the `ID` field and the column fields.
- `ProcessBatchDataHelper` wraps the method blocks in the `<ows:Batch OnError="…">` envelope.

The two enums, `BatchDataCommandType` and `OnErrorAction`, are modelled with them.

The second part is a set of general helpers:

- `StringExtensions.RemoveWhitespaces`;
- `ExtensionMethods.Partition` and `ExtensionMethods.Truncate`;
- `IEnumerableExtensions.IsEmpty`.

Everything is written as pure functions over immutable datatypes, apart from
the three loop-shaped helpers, which are methods with loop invariants. A .NET
exception becomes the `Failure` side of a `Result`. The two foreign
primitives are explicit parameters:

- `Guid.NewGuid()` becomes `newGuid: string` for one method block. For a whole batch it is a `GuidSource`, which gives the text for the method at each position.
- `SPUtility.CreateISO8601DateTimeFromSystemDateTime` becomes `iso: IsoFormatter`.

Every encoder is paired with a reader that parses the text back:
`ReadField`, `ReadMethod` and `ReadBatch`. Each has a round-trip lemma, so
the rendered text is shown to carry the column names and contents (a date
as its ISO text), the command, the resolved method id, the list id, the item
id (except for Add, whose ID field is `New`) and the effective error action
(undeclared values read as `Return`). The round trips hold for
*readable* inputs, meaning inputs that contain none of the delimiters that
would end a field early:

- no `"` in a column name or a method id;
- no `<` in plain content, ISO text or the list id;
- no `]` in CDATA content.

The source performs no escaping, so outside these conditions the output is
ambiguous.

Supporting modules:

- `Wrappers` holds `Option` and `Result`.
- `Text` holds the prefix matcher and splitter used by the readers, the .NET trims, character filtering and sequence flattening.
- `Decimal` holds `Int32.ToString(CultureInfo.InvariantCulture)` and its inverse parser.

The source declares the enums with three and two members. A C# enum
variable can still hold any integer, so each enum's datatype has an
`Other(value)` constructor. The enum types themselves, `CommandType` and
`OnErrorAction`, are subset types that admit `Other(n)` only for an
undeclared `n`, so every integer has exactly one representation.
Undeclared values are what make `GetCommandForMethod` throw, and what make
`OnErrorString` fall back to `Return`.

The constructors in `BatchDataColumn.cs` and
`BatchDataMethod.cs` validate nothing. The only failure is the invalid
command, raised at render time.

## Model

| member | source | states |
|---|---|---|
| BatchDataCommandType.FromValue | Devville.Helpers/Devville.Helpers.SharePoint/BatchData/BatchDataCommandType.cs:11-27 | Casting any integer to the enum gives a value that carries that integer: Add is 0, Update 1, Delete 2, anything else undeclared. |
| BatchDataCommandType.FromValueOfValue | Devville.Helpers/Devville.Helpers.SharePoint/BatchData/BatchDataCommandType.cs:11-27 | Every enum value is the cast of its own integer, so the cast and the value are inverse. |
| OnErrorAction.FromValue | Devville.Helpers/Devville.Helpers.SharePoint/BatchData/OnErrorAction.cs:13-28 | Casting any integer gives a value carrying it: Return is 0, Continue 1, anything else undeclared. |
| OnErrorAction.FromValueOfValue | Devville.Helpers/Devville.Helpers.SharePoint/BatchData/OnErrorAction.cs:13-28 | Every error action is the cast of its own integer. |
| BatchDataColumn.ToString | Devville.Helpers/Devville.Helpers.SharePoint/BatchData/BatchDataColumn.cs:116-123 | The fragment always starts with the fixed `urn:schemas-microsoft-com:office:office#` opener, the internal name and `">`, and always ends with `</SetVar>`. |
| BatchDataColumn.ReadFieldOfToString | Devville.Helpers/Devville.Helpers.SharePoint/BatchData/BatchDataColumn.cs:116-123 | Reading a readable column's fragment gives back its name and content, with CDATA exactly when the HTML branch was taken, and leaves any following text untouched. |
| BatchDataColumn.ReadContentOfRendered | Devville.Helpers/Devville.Helpers.SharePoint/BatchData/BatchDataColumn.cs:118-122 | The rendered value reads back as the ISO text for a date, as CDATA text for an HTML-flagged value, and as plain text otherwise. |
| BatchDataColumn.DateIgnoresHtmlFlag | Devville.Helpers/Devville.Helpers.SharePoint/BatchData/BatchDataColumn.cs:118-119 | A date renders through the ISO-8601 formatter with or without the HTML flag. |
| BatchDataColumn.NonDateRendering | Devville.Helpers/Devville.Helpers.SharePoint/BatchData/BatchDataColumn.cs:120-122 | A non-date value is wrapped exactly once in `<![CDATA[`…`]]>` when flagged as HTML, and is otherwise inserted as its own text, unescaped. |
| BatchDataColumn.NullStillEmitted | Devville.Helpers/Devville.Helpers.SharePoint/BatchData/BatchDataColumn.cs:118-122 | A null value still produces the field, with empty content or `<![CDATA[]]>`. |
| BatchDataColumn.TwoArgumentConstructorIsNotHtml | Devville.Helpers/Devville.Helpers.SharePoint/BatchData/BatchDataColumn.cs:43-47 | A column built without the HTML flag never takes the CDATA branch. |
| BatchDataColumn.ThreeArgumentConstructorKeepsFlag | Devville.Helpers/Devville.Helpers.SharePoint/BatchData/BatchDataColumn.cs:63-68 | A non-date column built with the flag reads back as CDATA exactly when the flag is set, with the value's text as content. |
| Decimal.InvariantText | Devville.Helpers/Devville.Helpers.SharePoint/BatchData/BatchDataMethod.cs:190-192 | The invariant-culture text of an Int32 starts with `-` exactly when it is negative, and every other character is a decimal digit. It has no leading zero: only 0 itself is written with a leading `0`, and a negative number has a non-zero digit after the `-`. |
| Decimal.ParseInvariantText | Devville.Helpers/Devville.Helpers.SharePoint/BatchData/BatchDataMethod.cs:190-192 | Parsing the decimal text of any Int32, negative ones included, gives the number back. |
| Decimal.InvariantTextInjective | Devville.Helpers/Devville.Helpers.SharePoint/BatchData/BatchDataMethod.cs:190-192 | Different item ids never share an ID-field text. |
| BatchDataMethod.GetCommandForMethod | Devville.Helpers/Devville.Helpers.SharePoint/BatchData/BatchDataMethod.cs:137-149 | `Save` exactly for Add and Update, and `Delete` exactly for Delete. Any other value fails, always with ArgumentException("Invalid command!"). |
| BatchDataMethod.ResolveId | Devville.Helpers/Devville.Helpers.SharePoint/BatchData/BatchDataMethod.cs:181-184 | A non-null, non-empty id is used verbatim; a null or empty one is replaced by the generated Guid text. |
| BatchDataMethod.GetCommandForCast | Devville.Helpers/Devville.Helpers.SharePoint/BatchData/BatchDataMethod.cs:137-149 | Of the casts `(BatchDataCommandType)n`, exactly those with `n` outside 0..2 fail. 0 and 1 give `Save`, and 2 gives `Delete`. |
| BatchDataMethod.ItemField | Devville.Helpers/Devville.Helpers.SharePoint/BatchData/BatchDataMethod.cs:190-192 | The ID field is `New` for Add whatever the item id is. For any other command it is the shortest invariant-culture decimal text of the item id, which parses back to the item id. |
| BatchDataMethod.GetMethodXml | Devville.Helpers/Devville.Helpers.SharePoint/BatchData/BatchDataMethod.cs:174-202 | It fails exactly for an undeclared command, with the invalid-command error. Otherwise the block opens with `<Method ID="`, the resolved id, `"><SetList>`, the list id and `</SetList><SetVar Name="Cmd">`, and closes with `</Method>`. |
| BatchDataMethod.ToString | Devville.Helpers/Devville.Helpers.SharePoint/BatchData/BatchDataMethod.cs:114-117 | Rendering a method fails exactly when its command is undeclared. |
| BatchDataMethod.ColumnsXmlAppend | Devville.Helpers/Devville.Helpers.SharePoint/BatchData/BatchDataMethod.cs:186-188 | The columns part of a concatenated list is the two parts appended: list order is kept and there is no separator. |
| BatchDataMethod.DecodeCommandOfFields | Devville.Helpers/Devville.Helpers.SharePoint/BatchData/BatchDataMethod.cs:137-149 | The verb and the ID field together recover the command, and the item id for Update and Delete. So Add and Update stay distinct although both say `Save`. |
| BatchDataMethod.ReadFieldsOfColumnsXml | Devville.Helpers/Devville.Helpers.SharePoint/BatchData/BatchDataMethod.cs:186-188 | The concatenated column fragments read back as the columns' fields, one per column, in list order. |
| BatchDataMethod.ReadMethodOfToString | Devville.Helpers/Devville.Helpers.SharePoint/BatchData/BatchDataMethod.cs:174-202 | A readable method with a declared command renders successfully. The block reads back as its resolved id, list id, command, item id (absent for Add) and column fields, and any following text is left untouched. |
| BatchDataMethod.NewMethodXml | Devville.Helpers/Devville.Helpers.SharePoint/BatchData/BatchDataMethod.cs:43-46 | A freshly constructed method renders as an Add with a generated id, the empty Guid as list, `Save`, `New` and an empty columns part. |
| BatchDataMethod.DeleteRow42Xml | Devville.Helpers/Devville.Helpers.SharePoint/BatchData/BatchDataMethod.cs:174-202 | A Delete of row 42 with no columns renders with verb `Delete`, ID field `42` and an empty columns part. |
| BatchDataMethod.SuppliedIdIgnoresGenerator | Devville.Helpers/Devville.Helpers.SharePoint/BatchData/BatchDataMethod.cs:181-184 | With a supplied non-empty id, the rendering does not depend on the Guid generator. |
| ProcessBatchDataHelper.OnErrorString | Devville.Helpers/Devville.Helpers.SharePoint/BatchData/ProcessBatchDataHelper.cs:89-99 | The token is `Continue` exactly for Continue. It is `Return` for Return and for every undeclared value, and it never fails. |
| ProcessBatchDataHelper.OnErrorStringOfCast | Devville.Helpers/Devville.Helpers.SharePoint/BatchData/ProcessBatchDataHelper.cs:89-99 | Of the casts `(OnErrorAction)n`, exactly `n == 1` gives `Continue`, and every other integer gives `Return`. |
| ProcessBatchDataHelper.ParseOnErrorString | Devville.Helpers/Devville.Helpers.SharePoint/BatchData/ProcessBatchDataHelper.cs:89-99 | The token reads back as the action, with undeclared values read as Return. |
| ProcessBatchDataHelper.MethodsXml | Devville.Helpers/Devville.Helpers.SharePoint/BatchData/ProcessBatchDataHelper.cs:67-68 | The methods part fails exactly when some method has an undeclared command, and then with the invalid-command error. |
| ProcessBatchDataHelper.ReadMethodsOfMethodsXml | Devville.Helpers/Devville.Helpers.SharePoint/BatchData/ProcessBatchDataHelper.cs:67-68 | The concatenated method blocks read back as the methods' meanings in list order, each with the id it was given. |
| ProcessBatchDataHelper.GetBatch | Devville.Helpers/Devville.Helpers.SharePoint/BatchData/ProcessBatchDataHelper.cs:65-72 | It fails, with no partial envelope, exactly when some method has an undeclared command. Otherwise the text opens with the XML declaration, `<ows:Batch OnError="`, the error token and `">`. |
| ProcessBatchDataHelper.ReadBatchOfGetBatch | Devville.Helpers/Devville.Helpers.SharePoint/BatchData/ProcessBatchDataHelper.cs:65-72 | A batch of readable methods with declared commands renders. The envelope reads back as the effective error action and the methods' meanings in order, and nothing follows `</ows:Batch>`. |
| ProcessBatchDataHelper.GetBatchDefault | Devville.Helpers/Devville.Helpers.SharePoint/BatchData/ProcessBatchDataHelper.cs:46-49 | The one-argument overload fails under the same condition, with the same invalid-command error, and otherwise writes `OnError="Return"`. |
| ProcessBatchDataHelper.EmptyBatchDefault | Devville.Helpers/Devville.Helpers.SharePoint/BatchData/ProcessBatchDataHelper.cs:46-49 | An empty list under the default gives exactly the declaration, `<ows:Batch OnError="Return">` and `</ows:Batch>`. |
| ProcessBatchDataHelper.MethodsXmlIgnoresGuids | Devville.Helpers/Devville.Helpers.SharePoint/BatchData/ProcessBatchDataHelper.cs:67-68 | When every method supplies its own id, the methods part does not depend on the Guid generator. |
| ProcessBatchDataHelper.DeterministicWhenIdsSupplied | Devville.Helpers/Devville.Helpers.SharePoint/BatchData/ProcessBatchDataHelper.cs:65-72 | When every method supplies its own id, two renders of the same batch are identical. |
| StringExtensions.RemoveWhitespaces | Devville.Helpers/Devville.Helpers/StringExtensions.cs:118-137 | The result is the input with exactly the `\r`, `\n` and `\t` characters removed, and it contains none of them. |
| StringExtensions.RemoveWhitespacesKeepsOrder | Devville.Helpers/Devville.Helpers/StringExtensions.cs:130-132 | Every other character, spaces included, is kept, at the position given by the number of kept characters before it. |
| StringExtensions.RemoveWhitespacesLength | Devville.Helpers/Devville.Helpers/StringExtensions.cs:121-133 | The result is shorter than the input by exactly the number of `\r`, `\n` and `\t` characters. |
| StringExtensions.RemoveWhitespacesIdempotent | Devville.Helpers/Devville.Helpers/StringExtensions.cs:118-137 | Removing twice is the same as removing once. |
| StringExtensions.RemoveWhitespacesUnchanged | Devville.Helpers/Devville.Helpers/StringExtensions.cs:118-137 | Input without those three characters comes back unchanged. |
| StringExtensions.RemoveWhitespacesDistributes | Devville.Helpers/Devville.Helpers/StringExtensions.cs:121-133 | Removal distributes over concatenation. |
| ExtensionMethods.Partition | Devville.Helpers/Devville.Helpers/ExtensionMethods.cs:36-59 | A negative size fails with an overflow error, and a zero size with a non-empty source fails with an index error. Otherwise the chunks flatten back to the source, none is empty or longer than `size`, and all but the last are full. They equal the reference front-to-back chunking. |
| ExtensionMethods.ChunkingIsUnique | Devville.Helpers/Devville.Helpers/ExtensionMethods.cs:41-58 | Any chunk list with that shape, flattening to the source, is the reference chunking, so the shape determines the result. |
| ExtensionMethods.ChunkCount | Devville.Helpers/Devville.Helpers/ExtensionMethods.cs:38-58 | The number of chunks is the ceiling of the source length divided by `size`, and zero for an empty source. |
| ExtensionMethods.Words | Devville.Helpers/Devville.Helpers/ExtensionMethods.cs:82 | Splitting at spaces and dropping empty entries yields only non-empty words without spaces. |
| ExtensionMethods.WordsKeepNonSpace | Devville.Helpers/Devville.Helpers/ExtensionMethods.cs:82 | The words, concatenated, are exactly the input's non-space characters in order. |
| ExtensionMethods.WordsOfJoin | Devville.Helpers/Devville.Helpers/ExtensionMethods.cs:82 | Splitting words joined by single spaces gives the same words back. |
| ExtensionMethods.WordsOfWord | Devville.Helpers/Devville.Helpers/ExtensionMethods.cs:82 | Text without spaces is a single word. |
| ExtensionMethods.WordsSplitAtSpace | Devville.Helpers/Devville.Helpers/ExtensionMethods.cs:82 | A space separates words: the words of `a + " " + b` are the words of `a` followed by those of `b`. Runs of spaces therefore produce no empty words, and with WordsOfWord this fixes the split on every input. |
| ExtensionMethods.Truncate | Devville.Helpers/Devville.Helpers/ExtensionMethods.cs:78-94 | Text within `maxLength` comes back trimmed. Longer text keeps the leading words that fit, joined by single spaces, followed by the suffix, then trimmed. It fails with an index error exactly when every word fits or there are none. A result is never longer than the suffix plus `maxLength`, or than the suffix alone when `maxLength` is not positive. |
| ExtensionMethods.TrimEndOfTerminated | Devville.Helpers/Devville.Helpers/ExtensionMethods.cs:86-90 | Trimming trailing spaces from the builder, which holds each kept word followed by a space, leaves the words joined by single spaces. |
| ExtensionMethods.KeptWordsFit | Devville.Helpers/Devville.Helpers/ExtensionMethods.cs:84-90 | The kept words, joined, are never longer than `maxLength`. |
| ExtensionMethods.FirstWordTooLong | Devville.Helpers/Devville.Helpers/ExtensionMethods.cs:84-90 | A first word longer than `maxLength` keeps nothing, so the result is the trimmed suffix. |
| ExtensionMethods.TruncateFailsExactly | Devville.Helpers/Devville.Helpers/ExtensionMethods.cs:82-84 | Every word is kept, which makes the loop read past the last word, exactly when there are no words or all of them joined fit within `maxLength`. |
| ExtensionMethods.JoinSingleSpaces | Devville.Helpers/Devville.Helpers/ExtensionMethods.cs:82-90 | Each space in the kept text sits between two non-space characters, so runs of spaces collapse to one and none lead or trail. |
| IEnumerableExtensions.Any | Devville.Helpers/Devville.Helpers/IEnumerableExtensions.cs:51 | `Any()` holds exactly when the sequence has an element. |
| IEnumerableExtensions.IsEmpty | Devville.Helpers/Devville.Helpers/IEnumerableExtensions.cs:32-52 | Null is empty. Otherwise a generic collection, a non-generic collection and a plain sequence are all empty exactly when they have no items, so all branches agree. |

## Left out

- ImpersonationHelper.cs: privilege elevation and SharePoint site lifetimes are infrastructure over an API this model does not see.
- ApplicationStartModuleBase.cs: double-checked locking on a static flag; concurrency is its whole point.
- SPQueryHelper.cs and SPListExtensions.cs: they fill in SharePoint query objects and run store lookups. Their one pure helper, RemoveWhitespaces, is modelled.
- Parser.cs: culture-dependent .NET `TryParse` dispatch, reflection and a regular expression.
- StringExtensions.FormatWith: regular-expression rewriting, reflection over property names and composite formatting.
- SPUtility's ISO-8601 conversion, `Guid.NewGuid`, `Guid.ToString` and `object.ToString` of arbitrary values: none of their implementations is visible. The first two are parameters. The list id is its Guid text. A scalar value is its own text.
- GUID draw order: the generator is indexed by method position. The method at position i uses `guids(i)`, and a method with its own id ignores its entry. The sequence of `NewGuid` calls is not modelled.
- Null inputs: a null method list, a null `ColumnsData`, or a null string passed to RemoveWhitespaces or Truncate throws NullReferenceException. A null entry inside a list renders as nothing. A null suffix appends nothing. All of these are left out: lists, strings and suffixes are never null here.
- Characters: a Dafny `char` is a Unicode scalar value, not a UTF-16 code unit. Only text without surrogate code units is modelled, and on such text every length in the model equals .NET's `Length`. `Trim()` uses the `char.IsWhiteSpace` set and `TrimEnd(' ')` only the space.
- Surrogates: a C# string holding a character outside the Basic Multilingual Plane (two code units) or a lone surrogate has no representation here. Truncate's `str.Length` and `sb.Length + words[i].Length` count code units, so its cut-off on such text is not modelled.
- ExtensionMethods.Truncate: does not model 32-bit overflow of `sb.Length + words[i].Length`, because both lengths are bounded by the .NET string size limit.
- ExtensionMethods.Partition: the source is a lazy iterator that yields `IList<T>` arrays and raises its exception on enumeration. The model returns the whole result or the exception eagerly, so partial enumeration before a failure is not modelled. With a size of zero or less, nothing is yielded before the failure.
- IEnumerableExtensions.IsEmpty: a collection's `Count` is taken to equal the number of items it enumerates. Side effects of enumerating a lazy sequence are not modelled.
- BatchDataColumn.ReadFieldOfToString: the round trip is proved only for readable columns. The source escapes nothing, so other values can make the text ambiguous.
- BatchDataMethod.ReadMethodOfToString: proved only for readable methods, for the same reason.
- ProcessBatchDataHelper.ReadBatchOfGetBatch: proved only for readable methods, for the same reason.
