# Haxe hierarchy lookup rules and the haxelib string codec

A Dafny model of two pieces of the IntelliJ Haxe plugin.

- `HaxeHierarchyUtils` holds the lookup rules the type and call hierarchy views use:
  - which class an identifier refers to, taking the first class among the candidates of a multi-reference;
  - which classes a file declares at top level;
  - which class and which file contain the element at the caret;
  - which element the caret is on;
  - which method an action targets, found by looking at the referenced element's parent;
  - which class a reference expression resolves to.
- `HaxelibParser` writes a library reference as `haxelib|<name>|<version>` and is meant to read it back.

PSI elements are modelled as values (`Psi.Node`). Each value carries flags for the `instanceof` tests the code makes: `HaxeFile`, `PsiClass`, `HaxeClass`, `AbstractHaxePsiClass`, `AnonymousHaxeTypeImpl`. It also carries the type `HaxeComponentType.typeOf` reports and its parent, held by value, so every walk along `getParent()` ends. The tree walks are methods with `while` and `for` loops, each proved equal to a specification function. Lemmas then characterise each function against the ancestor-or-self chain (`Psi.AncestorsOrSelf`).

Everything these functions read from the IDE becomes a plain input:
- the `DataContext` keys `PROJECT`, `EDITOR` and `PSI_ELEMENT`;
- the document's PSI file and its `findElementAt`;
- the caret offset;
- the two `findTargetElement` lookups, which use different flag sets;
- the references found at offset 0 of an identifier and what each one resolves to;
- `resolveHaxeClass()`.

`String.split` takes a regular expression. The model therefore follows `Pattern.split` with limit 0: given the matches of the pattern, it drops the leading empty field that an empty match at the start would give, returns the input itself when no match produced a field, and drops trailing empty fields. The regex `"|"` is an alternation of two empty patterns and matches the empty string at every position. The model proves that `"".split("|")` is `[""]`, and that any other string splits into one single-character field per character. So `parseHaxelib` never returns an item, not even for the output of `stringifyHaxelib`.

## Model

| member | source | states |
|---|---|---|
| `Psi.AncestorsOrSelf` | src/com/intellij/plugins/haxe/ide/hierarchy/HaxeHierarchyUtils.java:192 | the chain an upward walk visits: it starts at the element, each entry's parent is the next entry, and the last entry has a null parent |
| `Psi.Root` | src/com/intellij/plugins/haxe/ide/hierarchy/HaxeHierarchyUtils.java:222 | the top of the parent chain: its parent is null and it is the last entry of the ancestor-or-self chain |
| `HaxeHierarchyUtils.AsHaxeClass` | src/com/intellij/plugins/haxe/ide/hierarchy/HaxeHierarchyUtils.java:92 | the narrowing `resolved instanceof HaxeClass ? resolved : null`: non-null exactly when the resolved element is a HaxeClass, and then it is that element |
| `HaxeHierarchyUtils.FindReferencedClassForId` | src/com/intellij/plugins/haxe/ide/hierarchy/HaxeHierarchyUtils.java:68-93 | a null id gives null. A missing reference outside the multi-reference branch throws NullPointerException. A single reference gives its target if that is a HaxeClass, else null. A multi-reference gives the first candidate, in getReferences order, that resolves to a PsiClass, if that candidate is a HaxeClass, and null when there is no such candidate |
| `HaxeHierarchyUtils.FirstClassAtUnique` | src/com/intellij/plugins/haxe/ide/hierarchy/HaxeHierarchyUtils.java:76-82 | the first class-like candidate is unique, so the loop's choice is determined |
| `HaxeHierarchyUtils.FirstClassAtIgnoresLater` | src/com/intellij/plugins/haxe/ide/hierarchy/HaxeHierarchyUtils.java:76-82 | candidates after the chosen one are never examined: replacing them by anything leaves the choice unchanged |
| `HaxeHierarchyUtils.ClassesIn` | src/com/intellij/plugins/haxe/ide/hierarchy/HaxeHierarchyUtils.java:117-127 | the class list is no longer than the child list, and an element is in it exactly when it is a child and a HaxeClass |
| `HaxeHierarchyUtils.ClassesInPreservesOrder` | src/com/intellij/plugins/haxe/ide/hierarchy/HaxeHierarchyUtils.java:119-124 | the k-th listed class is the child at the k-th HaxeClass position, these positions strictly ascend, and every HaxeClass child's position is among them. So the list is exactly the HaxeClass children, in child order |
| `HaxeHierarchyUtils.GetClassList` | src/com/intellij/plugins/haxe/ide/hierarchy/HaxeHierarchyUtils.java:117-127 | the collect loop returns `ClassesIn(children)`: only HaxeClass children (no recursion) and at most as many as there are children |
| `HaxeHierarchyUtils.NearestClassCharacterized` | src/com/intellij/plugins/haxe/ide/hierarchy/HaxeHierarchyUtils.java:177-195 | the walk from an element finds a class exactly when some ancestor-or-self is an allowed AbstractHaxePsiClass with no HaxeFile and no allowed class below it, and it returns that nearest one |
| `HaxeHierarchyUtils.NearestClass` | src/com/intellij/plugins/haxe/ide/hierarchy/HaxeHierarchyUtils.java:177-195 | the upward walk of getContainingClass: what it returns lies on the start element's ancestor-or-self chain, is not a HaxeFile, is an AbstractHaxePsiClass, and is not anonymous unless anonymous classes are allowed |
| `HaxeHierarchyUtils.AllowingAnonymousOnlyAddsAnonymous` | src/com/intellij/plugins/haxe/ide/hierarchy/HaxeHierarchyUtils.java:186-191 | the walk with `allowAnonymous` differs from the one without only by returning an anonymous class that the stricter walk skips. Where they differ, the stricter walk's answer is the stricter walk started from that anonymous class's parent |
| `HaxeHierarchyUtils.NearestClassSharesFile` | src/com/intellij/plugins/haxe/ide/hierarchy/HaxeHierarchyUtils.java:177-193 | the class the walk finds lies under the same nearest HaxeFile as the element the walk started from |
| `HaxeHierarchyUtils.ContainingClass` | src/com/intellij/plugins/haxe/ide/hierarchy/HaxeHierarchyUtils.java:143-200 | what getContainingClass returns: always an AbstractHaxePsiClass. Without an editor it can only be the PSI_ELEMENT. With an editor, anything other than the target element lies on the ancestor-or-self chain of the leaf at the caret |
| `HaxeHierarchyUtils.GetContainingClass` | src/com/intellij/plugins/haxe/ide/hierarchy/HaxeHierarchyUtils.java:138-201 | the method, with its parent-walk loop, returns `ContainingClass(context, allowAnonymous)`, and whatever it returns is an AbstractHaxePsiClass |
| `HaxeHierarchyUtils.ContainingClassRules` | src/com/intellij/plugins/haxe/ide/hierarchy/HaxeHierarchyUtils.java:143-200 | no project gives null. An editor without a PSI file gives null. A target element that is an AbstractHaxePsiClass is returned without the anonymous filter. Otherwise, with an editor, the result is the walk from getPsiElement's element. With no editor, the PSI_ELEMENT is returned only if it is an AbstractHaxePsiClass. Only the walk filters out anonymous classes |
| `HaxeHierarchyUtils.NearestFile` | src/com/intellij/plugins/haxe/ide/hierarchy/HaxeHierarchyUtils.java:218-223 | the upward walk of getContainingFile: what it returns is a HaxeFile on the start element's ancestor-or-self chain |
| `HaxeHierarchyUtils.NearestFileCharacterized` | src/com/intellij/plugins/haxe/ide/hierarchy/HaxeHierarchyUtils.java:218-224 | the file walk finds a file exactly when the ancestor-or-self chain holds a HaxeFile, and then it returns the nearest one |
| `HaxeHierarchyUtils.NearestFileIsRoot` | src/com/intellij/plugins/haxe/ide/hierarchy/HaxeHierarchyUtils.java:218-224 | in a tree whose only HaxeFile is its root, the file walk from any element returns that root |
| `HaxeHierarchyUtils.GetContainingFile` | src/com/intellij/plugins/haxe/ide/hierarchy/HaxeHierarchyUtils.java:211-225 | the loop returns the nearest HaxeFile on the chain of getPsiElement's element, or null, and what it returns is a HaxeFile |
| `HaxeHierarchyUtils.CaretElement` | src/com/intellij/plugins/haxe/ide/hierarchy/HaxeHierarchyUtils.java:256-266 | with no PSI file for the editor's document, null. Otherwise exactly what the file's findElementAt returns for the caret offset, which is the leaf it holds there, if any |
| `HaxeHierarchyUtils.GetPsiElement` | src/com/intellij/plugins/haxe/ide/hierarchy/HaxeHierarchyUtils.java:237-272 | no project gives null. With an editor, null when there is no PSI file, else the element at the caret offset. With no editor, the PSI_ELEMENT unchanged |
| `HaxeHierarchyUtils.GetReferencedElement` | src/com/intellij/plugins/haxe/ide/hierarchy/HaxeHierarchyUtils.java:275-286 | null without an editor, else the editor's referenced-element lookup; the project is not consulted |
| `HaxeHierarchyUtils.GetTargetMethod` | src/com/intellij/plugins/haxe/ide/hierarchy/HaxeHierarchyUtils.java:297-319 | a method view exactly when an editor is present, a referenced element is found and its parent's component type is METHOD. The view wraps that parent |
| `HaxeHierarchyUtils.TargetMethodDependsOnlyOnParent` | src/com/intellij/plugins/haxe/ide/hierarchy/HaxeHierarchyUtils.java:304-316 | the referenced element's own type is never consulted: referenced elements with the same parent give the same method |
| `HaxeHierarchyUtils.ResolveClassReference` | src/com/intellij/plugins/haxe/ide/hierarchy/HaxeHierarchyUtils.java:330-334 | null when resolveHaxeClass() is null, else the class that result carries (itself possibly null) |
| `JavaSplit.SplitLoop` | src/com/intellij/plugins/haxe/haxelib/HaxelibParser.java:37 | the find() loop of Pattern.split: the end of the last match used lies within the input. The fields it had are kept as a prefix and it adds at most one field per match. If the end is 0, no field was added |
| `JavaSplit.DropTrailingEmpty` | src/com/intellij/plugins/haxe/haxelib/HaxelibParser.java:37 | limit 0 trimming: the result is a prefix of the fields, it does not end in an empty field, and every field removed is empty |
| `JavaSplit.PatternSplit` | src/com/intellij/plugins/haxe/haxelib/HaxelibParser.java:37 | `Pattern.split(s, 0)` over the given matches: at most one field more than there are matches, and the result is the input itself, empty, or ends in a non-empty field |
| `JavaSplit.EmptyMatchesFrom` | src/com/intellij/plugins/haxe/haxelib/HaxelibParser.java:37 | the matches of `"|"` (the empty string at every position) are a well-formed, ordered match list |
| `JavaSplit.SplitOnEmptyAlternation` | src/com/intellij/plugins/haxe/haxelib/HaxelibParser.java:37 | `data.split("\|")` as written: `"".split("\|")` is `[""]`. Any other string splits into one field per character, each holding just that character |
| `JavaSplit.SplitOnEmptyAlternationShortFields` | src/com/intellij/plugins/haxe/haxelib/HaxelibParser.java:37 | every field of `data.split("\|")` has at most one character |
| `JavaSplit.CharMatchesFrom` | src/com/intellij/plugins/haxe/haxelib/HaxelibParser.java:37 | the matches of a one-character literal pattern are ordered, one character long, and each sits on that character |
| `JavaSplit.CharMatchesComplete` | src/com/intellij/plugins/haxe/haxelib/HaxelibParser.java:37 | every occurrence of the character is one of those matches |
| `JavaSplit.SplitOnChar` | src/com/intellij/plugins/haxe/haxelib/HaxelibParser.java:37 | the split on a literal one-character pattern, as the corrected `split("\\\|")` does it: a string that does not contain the character is a single field, the string itself |
| `HaxelibParser.Join` | src/com/intellij/plugins/haxe/haxelib/HaxelibParser.java:33 | Joiner.join: empty for no parts. Otherwise its length is the parts' total length plus one separator between each two parts, and it starts with the first part |
| `HaxelibParser.JoinThree` | src/com/intellij/plugins/haxe/haxelib/HaxelibParser.java:29-33 | joining three parts is `a + sep + b + sep + c` |
| `HaxelibParser.StringifyHaxelib` | src/com/intellij/plugins/haxe/haxelib/HaxelibParser.java:28-34 | the result is `"haxelib" + "\|" + name + "\|" + version`. It starts with `"haxelib\|"` and its length is the name's length plus the version's length plus 9 |
| `HaxelibParser.ParseHaxelib` | src/com/intellij/plugins/haxe/haxelib/HaxelibParser.java:36-44 | an item only when the split has exactly three fields and the first is `"haxelib"`, with name and version the second and third fields. Failure is a null result, not an exception |
| `HaxelibParser.ParseHaxelibAlwaysNull` | src/com/intellij/plugins/haxe/haxelib/HaxelibParser.java:36-44 | parseHaxelib returns null for every input |
| `HaxelibParser.ParseAfterStringifyFails` | src/com/intellij/plugins/haxe/haxelib/HaxelibParser.java:28-44 | parse(stringify(name, version)) is null for every name and version: the intended round trip does not hold |
| `HaxelibParser.ParseHaxelibLiteral` | src/com/intellij/plugins/haxe/haxelib/HaxelibParser.java:37-41 | the corrected parser, splitting on a literal `\|`: an item only for three fields with first field `"haxelib"` |
| `HaxelibParser.LiteralRoundTrip` | src/com/intellij/plugins/haxe/haxelib/HaxelibParser.java:28-44 | with the literal split, reading back a stringified name and version gives them back when neither contains `\|` and the version is not empty |
| `HaxelibParser.LiteralSplitDropsEmptyVersion` | src/com/intellij/plugins/haxe/haxelib/HaxelibParser.java:28-44 | even the literal split loses an empty version: Java drops the trailing empty field, so the result is null |

## Left out

- The IntelliJ calls are inputs, not models. This covers `CommonDataKeys.*.getData`, `PsiDocumentManager.getPsiFile`, `TargetElementUtil(Base).findTargetElement`, `findElementAt`, `findReferenceAt`, `PsiReference.resolve`, `resolveHaxeClass` and `HaxeComponentType.typeOf`. Their implementations are not part of this model. A PSI file is reduced to its offset-to-leaf lookup.
- Logging, the debug-level instance initializer and the throwing private constructor are not modelled, because they have no effect on any result. The module of functions cannot be instantiated.
- The commented-out ancestor walk in `findReferencedClassForId` is dead code and is not modelled.
- `HaxePsiMethod` and `HaxelibItem` are plain wrappers: a view of the declaration, and a name and version pair. Their constructors' internals are not part of this model.
- GetTargetMethod: the cast of the METHOD-typed parent to `HaxeComponentWithDeclarationList` is assumed to succeed. A `ClassCastException` there is not modelled.
- GetClassList: returns a sequence. The copy into a fresh Java array is not modelled.
- Java strings are assumed non-null. The `NullPointerException` Guava's `Joiner` throws for a null name or version is not modelled.
- `String.split` is modelled only through `Pattern.split` with limit 0 over a given list of matches. The match lists are those of `"|"` and of a one-character literal. General regular-expression matching is not modelled.
- Read locks and threading around PSI access are external discipline. The code shown has none.
- The editor completion test only calls `doTest` from a base class that is not part of this model, and it drives UI behaviour, so it is not modelled.
- The code passes `"|"` to a regex split and the model follows the code. A literal-pipe split is modelled separately as `ParseHaxelibLiteral` (see Findings).
- JavaSplit.SplitOnEmptyAlternation: strings are Dafny strings, sequences of Unicode code points, not Java's UTF-16 code units. A character outside the Basic Multilingual Plane is one field here but two in Java, one per surrogate, and the lengths in `StringifyHaxelib`'s contract count code points. That parseHaxelib always returns null does not depend on this.

## Findings

| source | as written | input that shows it | evidently intended | confidence | as-written member | corrected member |
|---|---|---|---|---|---|---|
| src/com/intellij/plugins/haxe/haxelib/HaxelibParser.java:37 | `data.split("\|")` takes `\|` as a regex: two empty alternatives that match between every two characters, so each field is one character and `strings[0]` is never `"haxelib"` | `stringifyHaxelib("lime", "2.0")` = `haxelib\|lime\|2.0` splits into 16 one-character fields, and parseHaxelib returns null | split on a literal pipe (`"\\\|"`), so that parse(stringify(name, version)) gives the item back | high; not executed | `HaxelibParser.ParseAfterStringifyFails` | `HaxelibParser.LiteralRoundTrip` |
