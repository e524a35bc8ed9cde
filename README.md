# PInvoke test printers and lookups, in Dafny

The PInvoke test suite converts native C declarations into a CodeDom tree.
It then checks that tree against expected strings. This project models the
shared helpers those tests rely on, all in `PInvoke.Test/Utilities.cs`:

- **CodeDomPrinter** prints a CodeDom type reference, expression, attribute
  collection, attribute, method signature or field as one canonical line of
  text. For example, a method prints as `Name(In Int32,Out String) As Boolean`.
- **SymbolPrinter** prints a native symbol tree as the symbol's name
  followed by each child's text in parentheses.
- **GeneratedCodeVerification** holds the lookups over a generated
  declaration tree. Each is a first-match linear search with ordinal
  comparison; they find types, members, fields, attributes, attribute
  arguments and methods. On top of them sit the signature checks
  `VerifyProc` and `VerifyNotProc`. These print every generated method and
  compare the text with the expected signatures.

The files are:

| file | module | contents |
|---|---|---|
| `text.dfy` | `Text` | String helpers: last occurrence of a character, join and split on a separator, decimal digits, parenthesis balance |
| `codedom.dfy` | `CodeDom` | The CodeDom entities the helpers read, as immutable values |
| `codedom_printer.dfy` | `CodeDomPrinter` | The printers, and lemmas about the text they produce |
| `symbol_printer.dfy` | `SymbolPrinter` | The symbol printer, and lemmas that read its text back |
| `code_verification.dfy` | `GeneratedCodeVerification` | The lookups and signature checks |

How the model is built:

- Printers that are plain expressions are Dafny functions.
- Printers that append to a `StringBuilder` or a string in a loop are
  methods with the same loop. Each method is proved to produce the text of
  a specification function, for example `ConvertMethod` produces
  `MethodText(m)`.
- Each search is a method with the same loop and early exit as the source.
  Its result is tied to `IndexOf`, the position of the first match, which
  has both halves of its characterisation proved.
- Where a helper throws, the result is `Err(message)`.
- Where a helper's only Xunit assertion is `Assert.NotNull`, a failed
  assertion is `None`.
- Where a helper asserts `True` or `Null`, the result is an `Outcome`: `Pass`,
  or `Fail(message)`.

Each printer has a partner proved about it:

- A parser that reads its text back: `ParseTypeText`, `ParseSymbol`,
  `ParseFieldText`, `ParseParamText`, and `Split` for the comma-separated
  lists.
- Or a structural invariant: balanced parentheses, no namespace dots, the
  separator count.

## Model

| member | source | states |
|---|---|---|
| `Text.LastIndexOf` | PInvoke.Test/Utilities.cs:24 | The result is -1 exactly when the character is absent; otherwise it is a position holding the character with none after it. |
| `Text.LastIndexOfSplit` | PInvoke.Test/Utilities.cs:24-30 | In `a + c + b` with no `c` in `b`, the last `c` is the one at position `|a|`. |
| `Text.JoinLoopStep` | PInvoke.Test/Utilities.cs:81-91 | One turn of a "separator unless first" loop turns `head + Join(first i items)` into `head + Join(first i+1 items)`. |
| `Text.SplitJoin` | PInvoke.Test/Utilities.cs:79-95 | Splitting the comma-joined texts of separator-free items gives back exactly those items, in order. |
| `Text.JoinSplit` | PInvoke.Test/Utilities.cs:79-95 | Joining the pieces of any split gives back the original string. |
| `Text.Split` | PInvoke.Test/Utilities.cs:79-95 | A split has at least one piece, and no piece contains the separator. |
| `Text.JoinSeparatorCount` | PInvoke.Test/Utilities.cs:79-95 | n separator-free items joined contain exactly n - 1 separators. |
| `Text.JoinEnds` | PInvoke.Test/Utilities.cs:79-95 | A join starts with its first item and ends with its last item. |
| `Text.DecimalString` | PInvoke.Test/Utilities.cs:31-34 | The printed array rank is a non-empty digit string, with no leading zero when the rank is positive. |
| `Text.DecimalRoundTrip` | PInvoke.Test/Utilities.cs:31-34 | Reading the printed rank's digits back gives the rank. |
| `Text.MatchWrapped` | PInvoke.Test/Utilities.cs:185-188 | In `"(" + x + ")" + rest` with `x` balanced, the parenthesis matching the first one closes exactly after `x`. |
| `Text.NameEndAt` | PInvoke.Test/Utilities.cs:184-187 | A parenthesis-free name followed by "(" or by nothing ends exactly at the name's length. |
| `CodeDomPrinter.RankSuffix` | PInvoke.Test/Utilities.cs:31-34 | For a positive rank, the "(rank)" suffix is balanced and has no dot and no space. |
| `CodeDomPrinter.ConvertNoNamespace` | PInvoke.Test/Utilities.cs:21-37 | A base name without a dot comes back unchanged, whatever the rank. A qualified name loses every namespace dot. |
| `CodeDomPrinter.NoNamespaceQualified` | PInvoke.Test/Utilities.cs:21-37 | `q.local` prints as `local`, followed by "(rank)" exactly when the rank is positive. |
| `CodeDomPrinter.NoNamespaceKeepsLocalNameAndRank` | PInvoke.Test/Utilities.cs:21-37 | From the text of a qualified type with a non-negative rank, the local name and the rank can both be recovered, except for a rank-0 local name that itself ends in "(digits)". |
| `CodeDomPrinter.ConvertTypeRef` | PInvoke.Test/Utilities.cs:39-48 | The text starts with the full base type; for rank 0 or less it is exactly the base type. |
| `CodeDomPrinter.TypeRefRoundTrip` | PInvoke.Test/Utilities.cs:39-48 | The printed text determines the type reference (base type and rank) for every non-negative rank, except for a rank-0 base name that itself ends in "(digits)". |
| `CodeDomPrinter.TypeRefTextAmbiguous` | PInvoke.Test/Utilities.cs:39-48 | The excluded cases really are ambiguous: `A(2)` with rank 0 prints like `A` with rank 2, and a negative rank prints like rank 0. |
| `CodeDomPrinter.ArrayTypeText` | PInvoke.Test/Utilities.cs:42-45 | `base(n)` reads back as base type `base` with rank `n`, for any positive `n`. |
| `CodeDomPrinter.ConvertExpression` | PInvoke.Test/Utilities.cs:50-77 | A field reference ends with a dot and the field name; an operation starts with its operator and "(" and ends with ")". Its partner is `ExpressionBalanced`. |
| `CodeDomPrinter.ExpressionBalanced` | PInvoke.Test/Utilities.cs:50-77 | When no name, operator or opaque text in the expression holds a parenthesis, the parentheses the printer writes, around operator operands and array ranks, nest properly. |
| `CodeDomPrinter.NoNamespaceBalanced` | PInvoke.Test/Utilities.cs:64-68 | A type-reference expression whose base name holds no parenthesis prints balanced. |
| `CodeDomPrinter.OperatorBalanced` | PInvoke.Test/Utilities.cs:70-74 | `Op(left)(right)` is balanced when both operands are. |
| `CodeDomPrinter.FieldOfTypeText` | PInvoke.Test/Utilities.cs:58-68 | A field of a type expression, such as `CallingConvention.StdCall`, prints as the type's local name, a dot and the field. |
| `CodeDomPrinter.ConvertAttributes` | PInvoke.Test/Utilities.cs:79-95 | The loop builds the attributes' texts with exactly one comma between neighbours, and "" for an empty collection. |
| `CodeDomPrinter.AttributeListItems` | PInvoke.Test/Utilities.cs:79-95 | An empty collection prints as "". When no attribute text holds a comma, the text splits back into the attribute texts in order, with exactly one comma fewer than there are attributes. |
| `CodeDomPrinter.ConvertAttribute` | PInvoke.Test/Utilities.cs:97-123 | The builder produces the unqualified type name, "(", the argument texts joined by commas, and ")". An unnamed argument prints as its value, a named one as `name=value`. |
| `CodeDomPrinter.AttributeArguments` | PInvoke.Test/Utilities.cs:97-123 | The text starts with `Type(` and ends with ")". With no arguments it is exactly `Type()`. Otherwise the inside splits back into the argument texts, when none holds a comma. |
| `CodeDomPrinter.ConvertMethod` | PInvoke.Test/Utilities.cs:125-165 | The builder produces: the name and "(", then each parameter's attributes, direction word and unqualified type, comma-separated; then ")", then " As ", the return attributes and type exactly when there is a return type. |
| `CodeDomPrinter.ParamStep` | PInvoke.Test/Utilities.cs:140-153 | The three appends for one parameter produce that parameter's text. |
| `CodeDomPrinter.MethodSignatureShape` | PInvoke.Test/Utilities.cs:125-165 | The signature begins with `name(params)`. It is exactly that when there is no return type. Otherwise it continues with " As " and the return attributes and type. |
| `CodeDomPrinter.MethodParametersInOrder` | PInvoke.Test/Utilities.cs:131-154 | When no parameter text holds a comma, the parameter list inside the signature splits back into the parameters' texts, in order. |
| `CodeDomPrinter.ParamDirectionRecovered` | PInvoke.Test/Utilities.cs:141-153 | For a parameter without attributes, the leading "In ", "Out " or "Ref " tells its direction apart, and the rest is its type text. |
| `CodeDomPrinter.ConvertField` | PInvoke.Test/Utilities.cs:167-175 | The builder produces the attributes, the full type, a space and the name. |
| `CodeDomPrinter.FieldRoundTrip` | PInvoke.Test/Utilities.cs:167-175 | For a field without attributes whose name has no space and whose type has a non-negative rank, the text determines its type reference and name, except for a rank-0 base name that itself ends in "(digits)". |
| `SymbolPrinter.Convert` | PInvoke.Test/Utilities.cs:182-191 | The recursive loop produces the symbol's canonical text: its name, then "(" + child text + ")" for each child, in order. |
| `SymbolPrinter.SymbolTextParts` | PInvoke.Test/Utilities.cs:182-191 | A leaf prints as its name; otherwise the name is followed by the parenthesised children. |
| `SymbolPrinter.GroupStep` | PInvoke.Test/Utilities.cs:185-188 | One turn of the loop appends the next child's parenthesised text. |
| `SymbolPrinter.SymbolTextBalanced` | PInvoke.Test/Utilities.cs:182-191 | When no name holds a parenthesis, the text of the tree is balanced. |
| `SymbolPrinter.GroupsBalanced` | PInvoke.Test/Utilities.cs:185-188 | Every prefix of the children's parenthesised texts is balanced. |
| `SymbolPrinter.SymbolRoundTrip` | PInvoke.Test/Utilities.cs:182-191 | When no name holds a parenthesis, reading the text back gives the same tree, so the printer is injective on such trees. |
| `SymbolPrinter.ChildrenRoundTrip` | PInvoke.Test/Utilities.cs:185-188 | The texts of the remaining children parse back into those children, in order. |
| `GeneratedCodeVerification.IndexOf` | PInvoke.Test/Utilities.cs:526-533 | A found position holds the key, and no earlier position does. Not found means the key is absent. |
| `GeneratedCodeVerification.IndexOfFirst` | PInvoke.Test/Utilities.cs:526-533 | Conversely, any position holding the key with none before it is the one found. |
| `GeneratedCodeVerification.VerifyType` | PInvoke.Test/Utilities.cs:523-544 | The first type with the name, or the exception "Could not find a type named N.  Found: " followed by every type's name and a space. |
| `GeneratedCodeVerification.VerifyMember` | PInvoke.Test/Utilities.cs:618-632 | The first member with the name; the NotNull assertion fails when there is none. |
| `GeneratedCodeVerification.VerifyField` | PInvoke.Test/Utilities.cs:689-695 | The first member with the name, when it is a field; otherwise the NotNull assertion fails. |
| `GeneratedCodeVerification.VerifyAttributeImpl` | PInvoke.Test/Utilities.cs:647-661 | The first attribute whose name is the type's full name, or nothing. |
| `GeneratedCodeVerification.VerifyNoAttribute` | PInvoke.Test/Utilities.cs:640-645 | The Null assertion fails exactly when some attribute has the name. |
| `GeneratedCodeVerification.VerifyArgumentImpl` | PInvoke.Test/Utilities.cs:663-674 | The first argument with the name, or nothing. |
| `GeneratedCodeVerification.VerifyNoArgument` | PInvoke.Test/Utilities.cs:682-687 | The Null assertion fails exactly when some argument has the name. |
| `GeneratedCodeVerification.MethodsOf` | PInvoke.Test/Utilities.cs:553-560 | Keeps exactly the methods among the members, and none of the other members. |
| `GeneratedCodeVerification.MethodsOfAppend` | PInvoke.Test/Utilities.cs:553-560 | Filtering keeps member order: it distributes over concatenation. |
| `GeneratedCodeVerification.ConvertToProc` | PInvoke.Test/Utilities.cs:546-563 | The methods of the first "NativeMethods" type, in member order, or VerifyType's exception when there is no such type. |
| `GeneratedCodeVerification.ConvertToSingleProc` | PInvoke.Test/Utilities.cs:565-579 | The first method with the name; the NotNull assertion fails when there is none. |
| `GeneratedCodeVerification.SignatureAt` | PInvoke.Test/Utilities.cs:584-586 | The i-th signature compared is the i-th method's printed text. |
| `GeneratedCodeVerification.VerifyProcImpl` | PInvoke.Test/Utilities.cs:581-599 | True exactly when some method prints as the signature. On false, `all` is a newline and a signature for every method. On true, it is that text for the methods before the first match. |
| `GeneratedCodeVerification.SeenBeforeFirstMatch` | PInvoke.Test/Utilities.cs:581-599 | On a match, the collected text is the text of the signatures before the first matching one. |
| `GeneratedCodeVerification.PassOver` | PInvoke.Test/Utilities.cs:591-595 | A non-matching method appends a newline and its signature, and is not the signature. |
| `GeneratedCodeVerification.FoundAt` | PInvoke.Test/Utilities.cs:587-590 | A match at position k, with the text collected before it, is what the true result promises. |
| `GeneratedCodeVerification.FirstUnmatched` | PInvoke.Test/Utilities.cs:601-609 | The position of the first expected signature that no method prints, with every earlier one printed; none when all are printed. |
| `GeneratedCodeVerification.FirstUnmatchedAt` | PInvoke.Test/Utilities.cs:601-609 | Conversely, the first unprinted signature is the one FirstUnmatched names. |
| `GeneratedCodeVerification.FirstUnmatchedNone` | PInvoke.Test/Utilities.cs:601-609 | When every signature is printed, nothing is unmatched. |
| `GeneratedCodeVerification.VerifyProc` | PInvoke.Test/Utilities.cs:601-609 | Passes exactly when every expected signature is printed by some method. Otherwise the assertion fails at the first missing one, with "Could not find the method. Looking For :", the signature, CR LF, "Found:" and every method's line. |
| `GeneratedCodeVerification.VerifyNotProc` | PInvoke.Test/Utilities.cs:611-616 | Fails with "Found a matching method" exactly when some method prints as the signature. |

## Left out

- The converter and its inputs are not part of this model. `ConvertToCodeDom` (Utilities.cs:514-521) runs the native parser and `BasicConverter`, and asserts that no errors were reported. So `ConvertToProc` takes the converted type collection, and `ConvertToSingleProc`, `VerifyProcImpl`, `VerifyProc` and `VerifyNotProc` take the methods it yields.
- Each call to `VerifyProcImpl` re-runs the conversion; the model treats it as returning the same methods every time.
- `ConvertToSingleProc` and `VerifyProcImpl` are not modelled when "NativeMethods" is missing. The VerifyType exception that `ConvertToProc(code)` then throws inside them (Utilities.cs:568 and 584) is left out, because the model takes the methods as given. `ConvertToProc` itself models that exception.
- `StorageFactory.CreateStandard` and `ProcessSal`: they fill a native storage database. They are test fixtures, not printers or lookups.
- `VerifyExpression`, `VerifyCSharpExpression`, `VerifyConstValue` and `VerifyEnumValue`: these depend on the parser, the converter and the code generators. Those are not part of this model.
- `VerifyProcCallingConvention` and `VerifyFPtrCallingConvention`: these depend on the same foreign converter.
- `VerifyAttribute` and `VerifyArgument` are each their `Impl` search followed by `Assert.NotNull`. So they are represented by `VerifyAttributeImpl` and `VerifyArgumentImpl`, whose `None` is the failed assertion.
- `VerifyField(ctd, name, value)` and `VerifyTypeMembers` (Utilities.cs:697-715) are left out. They are machine-converted Visual Basic that is not valid C#: a field passed without `ref`, and `members(i)` used as a call. Their meaning cannot be fixed from the text.
- Xunit is modelled by result values. A thrown exception is `Err`. `Assert.True` and `Assert.Null` give an `Outcome`. `Assert.NotNull` gives `None`.
- Xunit's own failure texts for `Assert.Null` and `Assert.NotNull` are not modelled: `VerifyNoAttribute` and `VerifyNoArgument` fail with an empty message.
- `Environment.NewLine` is a parameter, `newline`; `Constants.vbCrLf` is "\r\n".
- Strings are sequences of Unicode scalar values (Dafny's `char`), while the source's strings are UTF-16 code units. A character outside the Basic Multilingual Plane is one element in the model and a surrogate pair in the source, and a lone surrogate cannot be represented. Positions and lengths therefore differ for such text; the substrings cut at them agree. Comparisons are ordinal in both.
- `LastIndexOf(".")` in the source (Utilities.cs:24) uses the culture-sensitive string overload; the model uses an ordinal character search. They agree on names without combining marks or ignorable characters. A '.' followed by a combining mark, as in "A.\u0301B", is found by the ordinal search but not by the linguistic one.
- Culture-dependent `ToString()` of primitive values is not modelled: a primitive's value is carried as its printed text.
- A null `Name` is modelled as "". `string.IsNullOrEmpty(arg.Name)` in the attribute printer therefore becomes `name == ""`.
- Method return types are modelled as optional, following the printer's null test. CodeDom's own getter never yields null, so in practice " As " is always printed.
- A binary operator's `ToString()` (its enum name) is carried as text, as is the `ToString()` of every other kind of expression.
- The array rank is an unbounded integer. Its decimal text is `DecimalString`, the invariant-culture rendering of a non-negative integer. Negative ranks print no suffix, as in the source.
- `CodeDomPrinter.TypeRefRoundTrip`, `CodeDomPrinter.FieldRoundTrip`, `CodeDomPrinter.NoNamespaceKeepsLocalNameAndRank`: they are stated only for non-negative ranks, and for rank 0 only for base names that do not end in "(digits)". `CodeDomPrinter.TypeRefTextAmbiguous` shows that both excluded cases print like another type reference. For a positive rank any base name reads back (`CodeDomPrinter.ArrayTypeText`).
- The native symbol graph is modelled as a finite tree, `datatype Symbol`. Sharing and cycles reachable through `GetChildren()` cannot be expressed. An example is the self-referencing `RecursiveStruct` built at Utilities.cs:276-278. On a cyclic graph the source's recursion at Utilities.cs:187, which keeps no visited set, would not terminate. The model says nothing about that case.
- `SymbolPrinter.SymbolRoundTrip`: it is stated only for trees in which no name holds a parenthesis. Such a name is ambiguous in the printed text.
- `CodeDomPrinter.AttributeListItems`, `CodeDomPrinter.AttributeArguments`, `CodeDomPrinter.MethodParametersInOrder`: the text splits back only when no item's text holds a comma. Commas inside an item make the printed list ambiguous.
