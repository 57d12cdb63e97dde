# eslint-plugin-react-i18n, modelled in Dafny

This project models and proves properties of the three lint rules of
`eslint-plugin-react-i18n` that check internationalised React code, and of the
small value extractor they share.

- **`no-string-literal`** reports every string literal or template literal that
  reaches the user untranslated. Fourteen entry listeners, each keyed on an ESLint
  selector, mark literals as acceptable in a per-pass `visited` set. Examples are
  imports, comparison operands, arguments of ignored functions, `<Trans>`
  children, ignored JSX attributes, ignored object keys and SCREAMING_CASE
  constants. The `:exit` handler then reports each unmarked literal that holds
  visible text, unless it is blank, not a string, a URL, or a template that only
  wraps one expression.
- **`no-missing-interpolation-keys`** looks at each literal passed to a
  translation call (`t` or a configured function name). It finds the
  `{{placeholder}}`s of its text, with configurable delimiters, and reports once
  for every placeholder whose trimmed name is not a key of the object passed as
  the second argument.
- **`no-dynamic-translation-keys`** reports a translation call whose first
  argument is not a static key. A static key is a literal, or a template without
  embedded expressions.
- **`getValueFromNode`** returns a template's first chunk of raw text when it is
  non-empty, and the node's `value` otherwise.

The syntax tree is an arena: a `seq<Node>` in which each node holds its kind and
the index of its parent. `WellFormed` requires every parent to come before its
child, so walks up the parents terminate. Each node carries the fields the rules
read from its children, such as the callee expression, the key's name and value,
the tag name and the argument shapes.

The no-string-literal rule keeps state between handler calls, so it is
imperative Dafny. Class `NoStringLiteralPass.Pass` holds the `visited` set and
the reports made so far, and has one query method per entry handler. The walks
up the parents are loops proved against the specification functions of
`NoStringLiteral`. `Pass.Handle` takes one enter or exit event from the
traversal, and `Run` feeds it a whole event sequence. `Run` is proved to report
exactly `ExpectedReports`: one diagnostic per exit from a node that
`ShouldReport` selects. The other two rules are functions of the call they look
at. Their `forEach` report loop is a method.

Modules:

| module | file | holds |
|---|---|---|
| `Wrappers` | wrappers.dfy | `Option` |
| `JsValues` | js_values.dfy | literal values, truthiness, `===`, `trim`, ASCII case folding, prefix tests |
| `Syntax` | syntax.dfy | expressions, node kinds and types, the arena tree, ancestor walks, diagnostics |
| `Utils` | utils.dfy | `getValueFromNode` |
| `NoStringLiteral` | string_literal_policy.dfy | the rule's constants, helpers, listener policies and the exit test |
| `NoStringLiteralPass` | string_literal_pass.dfy | the helper loops, class `Pass` and `Run` |
| `NoStringLiteralProperties` | string_literal_properties.dfy | what a pass reports, and the rule's documented cases |
| `NoMissingInterpolationKeys` | interpolation.dfy | delimiters, escaping, the placeholder scan, missing keys, the handler |
| `NoMissingInterpolationKeysProperties` | interpolation_properties.dfy | outcomes of the handler and its documented cases |
| `NoDynamicTranslationKeys` | dynamic_keys.dfy | the handler and its properties |

Where the documentation and the code differ, the model follows the code:

- `no-dynamic-translation-keys` reports a translation call with no argument at
  all (`t()`), because `node.arguments[0]` is then `undefined` and neither early
  return is taken (`NoDynamicTranslationKeys.NoArgumentReported`).
- For `<div>{num} {people}</div>`, the no-string-literal tests expect a report on
  the `" "` text between the expressions. The exit handler's blank-string check
  returns before reporting it (`NoStringLiteralProperties.BlankNeverReported`).
- In `no-missing-interpolation-keys`, a truthy value that is not a string, such
  as the number in `t(5)`, reaches `value.match`, which numbers do not have, so
  the handler throws a `TypeError`. This is modelled as the outcome `Throws`
  (`NoMissingInterpolationKeysProperties.NonStringValueThrows`).

## Model

| member | source | states |
|---|---|---|
| JsValues.TrimStart | lib/rules/no-string-literal.js:531-533 | the result is a suffix of the input, does not start with whitespace, and only whitespace was dropped |
| JsValues.TrimEnd | lib/rules/no-string-literal.js:531-533 | the result is a prefix of the input, does not end with whitespace, and only whitespace was dropped |
| JsValues.TrimEmptyIffBlank | lib/rules/no-string-literal.js:531-533 | `trim()` leaves the empty string exactly when the string is all whitespace, so `!value.trim()` means blank |
| JsValues.Trim | lib/rules/no-string-literal.js:531-533 | `String.prototype.trim`: leading, then trailing whitespace dropped; what that leaves is pinned down by `TrimStart`, `TrimEnd`, `TrimEmptyIffBlank` and `TrimKeepsInner` |
| JsValues.TrimKeepsInner | lib/rules/no-missing-interpolation-keys.js:103-112 | trimming keeps a string that has no whitespace at either end |
| JsValues.AsciiLower | lib/rules/no-string-literal.js:348-352 | the `i` flag maps each capital to its own lower-case letter (code point plus 32) and leaves every other character alone |
| JsValues.Truthy | lib/rules/no-missing-interpolation-keys.js:91-94 | JavaScript truthiness as `!value` tests it: `undefined`, `null`, `false`, `0` and the empty string are falsy, everything else truthy; `FalsyValueSkipped` and `LeadingExpressionSkipped` use it |
| JsValues.StrictEquals | lib/rules/no-string-literal.js:495 | `===` on literal values: same type and same value, so `undefined === undefined` holds; `PropertyExamples` shows that case |
| JsValues.StartsWithIgnoringCaseIff | lib/rules/no-string-literal.js:348-352 | a case-insensitive prefix test holds exactly when each folded character of the string equals the pattern's, position by position |
| Syntax.JsxTypes | lib/rules/no-string-literal.js:428-436 | a node has type `JSXAttribute` or `JSXOpeningElement` exactly when it is of that kind |
| Syntax.ValueField | lib/utils/index.js:14 | `node.value` is `undefined` on every node that is not a literal |
| Syntax.Chain | lib/rules/no-string-literal.js:329-338 | the walk `temp = temp.parent` visits nodes of the tree, is empty exactly when it starts from no node, starts at its first node, and only climbs to nodes of smaller index |
| Syntax.FirstOfType | lib/rules/no-string-literal.js:329-338 | the node found is on the walk and has the type, and every node of the walk with the type is at or above it (the nearest one); when there is none, no node of the walk has the type |
| Syntax.NearestOfType | lib/rules/no-string-literal.js:329-338 | an ancestor is found exactly when some ancestor has the type; it is an ancestor of that type, and no ancestor of that type is nearer |
| Syntax.AnyInChainIffExists | lib/rules/no-string-literal.js:285-320 | a walk up the parents that stops at the first match finds one exactly when some node of the chain matches |
| Syntax.AttributeHasOpeningElement | lib/rules/no-string-literal.js:428-436 | a literal under a JSX attribute always has an opening element above it, so the handler's tag lookup never fails |
| Utils.GetValueFromNode | lib/utils/index.js:3-15 | a template with a non-empty first chunk yields that chunk; every other node yields its `value`; a template's value is truthy exactly when its first chunk is non-empty |
| Utils.OnlyFirstChunkRead | lib/utils/index.js:4-11 | later chunks and the number of expressions of a template do not change its value |
| Utils.EmptyFirstChunkIsUndefined | lib/utils/index.js:4-14 | a template that starts with an expression yields `undefined` |
| Utils.LiteralValueUnchanged | lib/utils/index.js:14 | a literal yields its own value, whatever its type |
| NoStringLiteral.IsUpperCase | lib/rules/no-string-literal.js:241-243 | `/^[A-Z_-]+$/`: the string is non-empty and every character is a capital, `_` or `-` |
| NoStringLiteral.IsUpperCaseValue | lib/rules/no-string-literal.js:241-243 | the test on a declarator's value: only a string can pass, since the string form of every other value holds a character outside `[A-Z_-]` |
| NoStringLiteral.IsFirstLetterUpperCase | lib/rules/no-string-literal.js:245-247 | `/[A-Z]/` on the tag name: some capital anywhere in it; a tag with no name has none |
| NoStringLiteral.IsIgnoredClassProperty | lib/rules/no-string-literal.js:249-262 | a class property whose key, or an assignment whose left property, is named `displayName` |
| NoStringLiteral.ObjectNameOf | lib/rules/no-string-literal.js:265-271 | the object name the loop settles on: the first identifier down the `property` chain, or the object itself; `NoStringLiteralPass.FindIgnoreCallees` is proved against it |
| NoStringLiteral.EntryMatches | lib/rules/no-string-literal.js:273-282 | an entry matches when it lists the object name and, if it has `functions`, also lists the member's name |
| NoStringLiteral.MatchesAnyEntry | lib/rules/no-string-literal.js:264-283 | `.find` succeeds: some entry of the list matches the member call |
| NoStringLiteral.CalleeIgnoredBy | lib/rules/no-string-literal.js:285-320 | identifiers in the default or configured function names; members matched by the default or configured entries, native string methods or configured names; dynamic `import`; nothing else |
| NoStringLiteral.FindIncludedAttributes | lib/rules/no-string-literal.js:340-346 | some pair lists both the tag name and the attribute name |
| NoStringLiteral.IsIgnoredAttribute | lib/rules/no-string-literal.js:322-327 | the tag is one of the components and the attribute one of the attributes |
| NoStringLiteral.MatchesIgnoredAttributePattern | lib/rules/no-string-literal.js:96 | the style-name pattern finds `ClassName` or `Style` after at least one character that is not a line break |
| NoStringLiteral.AttributeExempt | lib/rules/no-string-literal.js:437-477 | the three branches of the attribute handler joined: a valid HTML attribute on a plain tag, an ignored pair, ignored or style-like attribute names, or the button, input and link component attributes |
| NoStringLiteral.DeclaratorExempts | lib/rules/no-string-literal.js:514-523 | a SCREAMING_CASE name with a SCREAMING_CASE value, or a name starting with `NON_DISPLAY_` |
| NoStringLiteral.PropertyExempts | lib/rules/no-string-literal.js:483-503 | a property whose key name is ignored by default or by option, or whose key's value is strictly equal to the literal's value |
| NoStringLiteral.ExemptAsAssignedClassProperty | lib/rules/no-string-literal.js:359-367 | under an assignment, the parent is a `displayName` assignment |
| NoStringLiteral.ExemptAsComparisonOperand | lib/rules/no-string-literal.js:368-375 | the parent is a binary expression with a comparison operator |
| NoStringLiteral.ExemptByIgnoredCall | lib/rules/no-string-literal.js:376-390 | some ancestor is a call or `new` with an ignored callee |
| NoStringLiteral.ExemptAsClassPropertyValue | lib/rules/no-string-literal.js:391-397 | under a class property, the parent is a `displayName` class property |
| NoStringLiteral.ExemptInExportAll | lib/rules/no-string-literal.js:398-403 | some ancestor is `export * from` |
| NoStringLiteral.ExemptAsExportSource | lib/rules/no-string-literal.js:404-409 | the parent is a named export |
| NoStringLiteral.ExemptInImport | lib/rules/no-string-literal.js:410-413 | some ancestor is an import |
| NoStringLiteral.ExemptInIgnoredComponent | lib/rules/no-string-literal.js:414-427 | some ancestor is a `<Trans>` element |
| NoStringLiteral.AttributeContext | lib/rules/no-string-literal.js:429-436 | the tag name of the nearest opening element and the name of the nearest attribute |
| NoStringLiteral.ExemptAsAttributeValue | lib/rules/no-string-literal.js:428-478 | under an attribute, the attribute policy lets the nearest tag and attribute through |
| NoStringLiteral.ExemptAsMemberChild | lib/rules/no-string-literal.js:479-482 | the parent is a member expression |
| NoStringLiteral.ExemptByObjectKey | lib/rules/no-string-literal.js:483-503 | some ancestor is a property that `PropertyExempts` accepts for the literal's value |
| NoStringLiteral.ExemptAsSwitchCaseTest | lib/rules/no-string-literal.js:504-506 | the parent is a `case` |
| NoStringLiteral.ExemptByIgnoredTag | lib/rules/no-string-literal.js:507-513 | a template whose parent is a tagged template with an ignored tag |
| NoStringLiteral.ExemptAsConstant | lib/rules/no-string-literal.js:514-523 | under a declarator, the nearest declarator's name and the literal's value pass `DeclaratorExempts` |
| NoStringLiteral.Selects | lib/rules/no-string-literal.js:359-523 | each listener's ESLint selector, as a descendant or child test on the ancestors |
| NoStringLiteral.ExemptBy | lib/rules/no-string-literal.js:359-523 | each listener's policy, one of the fourteen predicates above |
| NoStringLiteral.Exempt | lib/rules/no-string-literal.js:359-523 | some listener of the rule marks the literal; `ExemptIffSomeListener` gives the exists form |
| NoStringLiteral.SkipsValue | lib/rules/no-string-literal.js:531-537 | a blank string, or a defined value that is not a string (`null` included) |
| NoStringLiteral.IsUrlString | lib/rules/no-string-literal.js:349 | the string starts, ignoring ASCII case, with one of `http://`, `https://`, `//`, `tel:`, `mailto:` or `file://` |
| NoStringLiteral.IsUrl | lib/rules/no-string-literal.js:348-352 | the extracted value is a string that `IsUrlString` accepts; the string forms of other values never start with a URL prefix |
| NoStringLiteral.IsBareTemplate | lib/rules/no-string-literal.js:547-555 | a template whose every chunk is empty, with at most one expression |
| NoStringLiteral.ExitSkips | lib/rules/no-string-literal.js:531-555 | the exit handler's three early returns that depend on the node alone |
| NoStringLiteral.ShouldReport | lib/rules/no-string-literal.js:524-558 | a literal is reported when it is not exempt and no early return applies; `ReportsExactly` ties it to the pass |
| NoStringLiteral.CallWalkNeedsSelector | lib/rules/no-string-literal.js:376-390 | the call handler can only exempt a literal that has a call or `new` among its ancestors |
| NoStringLiteral.ComponentWalkNeedsSelector | lib/rules/no-string-literal.js:414-427 | the `<Trans>` walk can only exempt a literal that has a JSX element among its ancestors |
| NoStringLiteral.PropertyWalkNeedsSelector | lib/rules/no-string-literal.js:483-503 | the object-key walk can only exempt a literal that has a property among its ancestors |
| NoStringLiteral.ExemptNeedsSelector | lib/rules/no-string-literal.js:359-523 | a listener only ever marks literals its selector matches |
| NoStringLiteral.ExemptAmongIff | lib/rules/no-string-literal.js:359-523 | a literal is exempt under a list of listeners exactly when some listener of the list marks it |
| NoStringLiteral.ListenersComplete | lib/rules/no-string-literal.js:359-523 | the declared listeners include every listener of the rule |
| NoStringLiteral.ExemptIffSomeListener | lib/rules/no-string-literal.js:359-523 | a literal ends up in `visited` exactly when one of the rule's fourteen listeners marks it |
| NoStringLiteralPass.GetNearestAncestor | lib/rules/no-string-literal.js:329-338 | the loop returns `NearestOfType`: the nearest ancestor of the type, or none when there is no such ancestor |
| NoStringLiteralPass.FindIgnoreCallees | lib/rules/no-string-literal.js:264-283 | the loop that walks down to the object name finds an entry exactly when some entry covers that object name and the member's name |
| NoStringLiteralPass.IsIgnoredCallee | lib/rules/no-string-literal.js:285-320 | a callee is ignored exactly as the policy says: a listed or configured function, a native string method, dynamic `import`, or a covered object member |
| NoStringLiteralPass.Pass.constructor | lib/rules/no-string-literal.js:225-235 | a pass starts with the tree and the options, an empty `visited` set and no reports |
| NoStringLiteralPass.Pass.OnAssignmentDescendant | lib/rules/no-string-literal.js:359-367 | a `displayName` assignment marks the literal |
| NoStringLiteralPass.Pass.OnComparisonOperand | lib/rules/no-string-literal.js:368-375 | an operand of a comparison operator is marked |
| NoStringLiteralPass.Pass.OnCallDescendant | lib/rules/no-string-literal.js:376-390 | the walk through the enclosing calls and `new`s marks the literal exactly when one of them has an ignored callee |
| NoStringLiteralPass.Pass.OnClassPropertyDescendant | lib/rules/no-string-literal.js:391-397 | the value of a `displayName` class property is marked |
| NoStringLiteralPass.Pass.OnExportAllDescendant | lib/rules/no-string-literal.js:398-403 | every literal under `export * from` is marked |
| NoStringLiteralPass.Pass.OnExportNamedChild | lib/rules/no-string-literal.js:404-409 | the source of `export { x } from` is marked |
| NoStringLiteralPass.Pass.OnImportDescendant | lib/rules/no-string-literal.js:410-413 | every literal under an import is marked |
| NoStringLiteralPass.Pass.OnJsxElementDescendant | lib/rules/no-string-literal.js:414-427 | the walk marks the literal exactly when some enclosing element is a `<Trans>` |
| NoStringLiteralPass.Pass.OnJsxAttributeDescendant | lib/rules/no-string-literal.js:428-478 | the attribute handler marks the literal exactly as the attribute policy decides for the nearest tag and attribute names |
| NoStringLiteralPass.Pass.AttributePolicy | lib/rules/no-string-literal.js:437-477 | the three branches (flagged pairs and attributes, ignored attributes of button, input and link components, plain tags) agree with the attribute policy |
| NoStringLiteralPass.Pass.OnMemberChild | lib/rules/no-string-literal.js:479-482 | a literal directly under a member expression is marked |
| NoStringLiteralPass.Pass.OnPropertyDescendant | lib/rules/no-string-literal.js:483-503 | the walk through the enclosing properties marks the literal exactly when one has an ignored key or a key strictly equal to the literal's value |
| NoStringLiteralPass.Pass.OnSwitchCaseChild | lib/rules/no-string-literal.js:504-506 | the test of a `case` is marked |
| NoStringLiteralPass.Pass.OnTaggedTemplateChild | lib/rules/no-string-literal.js:507-513 | a template under a tag that is an ignored function is marked |
| NoStringLiteralPass.Pass.OnDeclaratorDescendant | lib/rules/no-string-literal.js:514-523 | a `NON_DISPLAY_` constant, or a SCREAMING_CASE constant with a SCREAMING_CASE string value, is marked |
| NoStringLiteralPass.Pass.Listen | lib/rules/no-string-literal.js:359-523 | one listener, run only when its selector matches, marks the literal exactly when its policy does |
| NoStringLiteralPass.Pass.RunListeners | lib/rules/no-string-literal.js:359-523 | running every listener in declaration order marks the literal exactly when it is exempt |
| NoStringLiteralPass.Pass.OnEnter | lib/rules/no-string-literal.js:359-523 | entering a node adds it to `visited` exactly when it is an exempt literal; the pass invariant is kept |
| NoStringLiteralPass.Pass.OnExit | lib/rules/no-string-literal.js:524-558 | leaving a node appends one report exactly when the exit test selects it; the pass invariant is kept |
| NoStringLiteralPass.Pass.Handle | lib/rules/no-string-literal.js:359-558 | an enter event runs the entry listeners and an exit event the exit handler; the invariant `visited == entered * ExemptNodes` is kept |
| NoStringLiteralPass.Run | lib/rules/no-string-literal.js:224-558 | a pass over the host's events reports exactly the expected diagnostics, one per exit from a reportable node |
| NoStringLiteralProperties.ReportsExactly | lib/rules/no-string-literal.js:524-558 | every report carries the rule's message and names a left node that `ShouldReport` selects, and every such node is reported |
| NoStringLiteralProperties.ExemptNeverReported | lib/rules/no-string-literal.js:526-528 | a literal some listener marks is never reported |
| NoStringLiteralProperties.BlankNeverReported | lib/rules/no-string-literal.js:531-537 | an empty or whitespace-only string is never reported |
| NoStringLiteralProperties.NonStringNeverReported | lib/rules/no-string-literal.js:531-537 | a number, boolean, `null` or regex literal is never reported |
| NoStringLiteralProperties.UrlNeverReported | lib/rules/no-string-literal.js:540-542 | a string or template that starts with a URL prefix is never reported |
| NoStringLiteralProperties.BareTemplateNeverReported | lib/rules/no-string-literal.js:547-555 | a template with no text and at most one expression is never reported |
| NoStringLiteralProperties.PrefixIgnoresCase | lib/rules/no-string-literal.js:348-352 | strings that differ only in the case of ASCII letters agree on every case-insensitive prefix test |
| NoStringLiteralProperties.UrlIgnoresCase | lib/rules/no-string-literal.js:348-352 | changing the case of letters never changes whether a string is a URL |
| NoStringLiteralProperties.UrlExamples | lib/rules/no-string-literal.js:348-352 | `HTTPS://` and `Mailto:` followed by anything are URLs |
| NoStringLiteralProperties.FtpIsNotUrl | lib/rules/no-string-literal.js:348-352 | `ftp://` followed by anything is not a URL |
| NoStringLiteralProperties.OnlyListener | lib/rules/no-string-literal.js:359-523 | when no other listener marks a literal, exemption is what the single remaining listener decides |
| NoStringLiteralProperties.RootNeverExempt | lib/rules/no-string-literal.js:359-523 | a literal with no parent is never exempt |
| NoStringLiteralProperties.IgnoredCallExempts | lib/rules/no-string-literal.js:376-390 | an enclosing call with an ignored callee exempts a literal however deep it sits |
| NoStringLiteralProperties.ExemptUnderDeclarator | lib/rules/no-string-literal.js:514-523 | directly under a top-level declarator, a literal is exempt exactly when the constant rule says so |
| NoStringLiteralProperties.AttributeAncestorTypes | lib/rules/no-string-literal.js:428-436 | a literal on a top-level attribute has the attribute as parent, the opening element above it, and no other ancestor |
| NoStringLiteralProperties.OnlyAttributeSelector | lib/rules/no-string-literal.js:359-523 | on such an attribute no selector but the attribute one matches |
| NoStringLiteralProperties.ExemptOnAttribute | lib/rules/no-string-literal.js:428-478 | on such an attribute, the literal is exempt exactly when the attribute policy says so for that tag and attribute |
| NoStringLiteralProperties.ExemptInProperty | lib/rules/no-string-literal.js:483-503 | as the value of a top-level property, the literal is exempt exactly when the object-key rule says so |
| NoStringLiteralProperties.PlainTextNotSkipped | lib/rules/no-string-literal.js:531-542 | a string with no whitespace at its ends that is not a URL passes the exit handler's early returns |
| NoStringLiteralProperties.DeclaratorExamples | lib/rules/no-string-literal.js:514-523 | examples: `MESSAGE`/`'Hello there!'`, `foo`/`'BAR'` and a declarator without a name are not exempt; `FOO`/`'BAR'` and `NON_DISPLAY_GREETING`/`'Hello there!'` are |
| NoStringLiteralProperties.MessageConstantReported | lib/rules/no-string-literal.js:514-558 | `const MESSAGE = 'Hello there!'` is reported |
| NoStringLiteralProperties.ScreamingConstantExempt | lib/rules/no-string-literal.js:514-523 | `const FOO = 'BAR'` is not reported |
| NoStringLiteralProperties.LowerCaseConstantReported | lib/rules/no-string-literal.js:514-558 | `const foo = 'BAR'` is reported |
| NoStringLiteralProperties.NonDisplayConstantExempt | lib/rules/no-string-literal.js:514-523 | `const NON_DISPLAY_GREETING = 'Hello there!'` is not reported |
| NoStringLiteralProperties.TemplateExamples | lib/rules/no-string-literal.js:547-557 | `${number}` on its own is not reported, and `${number}${letter}` is |
| NoStringLiteralProperties.NoStylePattern | lib/rules/no-string-literal.js:96 | an attribute name with no capital `C` or `S` never matches the style pattern |
| NoStringLiteralProperties.ImageAltFlagged | lib/rules/no-string-literal.js:103-111 | `alt` on `img` is a flagged pair and is not let through |
| NoStringLiteralProperties.FlaggedAttributeOnAnyTag | lib/rules/no-string-literal.js:97-102 | by default, a flagged attribute (`aria-label`, `aria-placeholder`, `aria-valuetext`, `title`) is not let through on any tag, named or not |
| NoStringLiteralProperties.ButtonValueFlagged | lib/rules/no-string-literal.js:104-107 | `value` on `button` is a flagged pair |
| NoStringLiteralProperties.ImageAltReported | lib/rules/no-string-literal.js:428-558 | `<img alt="image">` is reported |
| NoStringLiteralProperties.ComponentAttributes | lib/rules/no-string-literal.js:437-477 | on a tag with a capital letter anywhere in its name, by default exactly the ignored attributes and the style-like names are let through |
| NoStringLiteralProperties.ExemptAttributes | lib/rules/no-string-literal.js:437-477 | examples, with no options: `name` on `div`, `className` on `Icon` and `iconClassName` on `Icon` are let through |
| NoStringLiteralProperties.PropertyExamples | lib/rules/no-string-literal.js:483-503 | examples, for a top-level property with an identifier key: a template under `label` is exempt (both `value`s are undefined), the string `'Hello'` under `label` is not, and `'Hello'` under the ignored key `key` is |
| NoStringLiteralProperties.ObjectCalleeExamples | lib/rules/no-string-literal.js:264-283 | examples, with no options: `document.querySelector` (object name `document`) and `window.document.createElement` (object name `document`, the first identifier property) are ignored |
| NoStringLiteralProperties.UnlistedCalleeExamples | lib/rules/no-string-literal.js:22-66 | examples, with no options: `document.write` (not in the `document` entry) and `document.body.querySelector` (object name `body`) are not ignored |
| NoStringLiteralProperties.OtherCalleeExamples | lib/rules/no-string-literal.js:285-320 | examples, with no options: `name.includes`, dynamic `import()` and `t` are ignored, `alert` is not |
| NoStringLiteralProperties.IgnoredCalleeNames | lib/rules/no-string-literal.js:285-320 | for all options and objects: a member call of a native string method or of an `ignoreFunctions` name is ignored; a direct call is ignored exactly when its name is `require`, `t` or in `ignoreFunctions`; dynamic `import()` is always ignored |
| NoStringLiteralProperties.EntryWithoutFunctions | lib/rules/no-string-literal.js:264-283 | for every `ignoreFunctionsOnObjects` entry without `functions`, every member call on an object whose name it lists is ignored |
| NoStringLiteralProperties.EntryWithFunctions | lib/rules/no-string-literal.js:264-283 | for every `ignoreFunctionsOnObjects` entry with `functions`, a call of a listed function on an object whose name it lists is ignored |
| NoStringLiteralProperties.EntryWithFunctionsExamples | lib/rules/no-string-literal.js:264-283 | examples: with the entry `logger`/`info`, `logger.info` is ignored while `logger.warn` and `console.info` are not |
| NoMissingInterpolationKeys.Prefix | lib/rules/no-missing-interpolation-keys.js:44 | the prefix is never empty, and it is the configured one whenever that is non-empty |
| NoMissingInterpolationKeys.Suffix | lib/rules/no-missing-interpolation-keys.js:45 | the suffix is never empty, and it is the configured one whenever that is non-empty |
| NoMissingInterpolationKeys.EscapeRegex | lib/rules/no-missing-interpolation-keys.js:51-53 | a backslash before every character of the source's class (`-`, brackets, braces, parentheses, `*+?.,^$#`, the backslash, the bar) and before whitespace; `EscapeRegexIsLiteral` shows what that achieves |
| NoMissingInterpolationKeys.EscapeRegexIsLiteral | lib/rules/no-missing-interpolation-keys.js:51-53 | every character of the escaped text with a meaning in a pattern is escaped, so the pattern matches the delimiters literally, inside and outside a bracketed class |
| NoMissingInterpolationKeys.NextStop | lib/rules/no-missing-interpolation-keys.js:99 | the run `[^suffix]*` ends at the first character of the suffix set, or at the end of the text |
| NoMissingInterpolationKeys.MatchAt | lib/rules/no-missing-interpolation-keys.js:98-101 | a match at the start of the text is at least as long as both delimiters |
| NoMissingInterpolationKeys.MatchAtIff | lib/rules/no-missing-interpolation-keys.js:98-101 | the pattern matches the start of the text up to `e` exactly when that prefix of the text is a whole placeholder |
| NoMissingInterpolationKeys.Scan | lib/rules/no-missing-interpolation-keys.js:98-102 | `value.match` with the `g` flag: every match left to right, each search resuming after the previous match, `null` as the empty list; pinned down by the lemmas below |
| NoMissingInterpolationKeys.ScanFindsPlaceholders | lib/rules/no-missing-interpolation-keys.js:102 | every match `value.match` returns is a whole placeholder |
| NoMissingInterpolationKeys.ScanEmptyIffNoPlaceholder | lib/rules/no-missing-interpolation-keys.js:102 | `value.match` finds nothing exactly when no placeholder occurs anywhere in the text |
| NoMissingInterpolationKeys.ScanSkips | lib/rules/no-missing-interpolation-keys.js:102 | text in which the prefix cannot begin contributes no match |
| NoMissingInterpolationKeys.ScanTakes | lib/rules/no-missing-interpolation-keys.js:102 | a placeholder at the start is the first match, and the search resumes after it |
| NoMissingInterpolationKeys.Strip | lib/rules/no-missing-interpolation-keys.js:105-109 | removing the delimiters never lengthens a match |
| NoMissingInterpolationKeys.StripKeepsPlain | lib/rules/no-missing-interpolation-keys.js:105-109 | text where no delimiter can begin is kept as it is |
| NoMissingInterpolationKeys.StripPlaceholder | lib/rules/no-missing-interpolation-keys.js:105-109 | when the prefix and the suffix begin with different characters, stripping a placeholder whose inner text holds neither first character leaves the inner text |
| NoMissingInterpolationKeys.StripNestedPrefix | lib/rules/no-missing-interpolation-keys.js:99-109 | when the prefix and the suffix begin with different characters, a second prefix inside a match is removed too: `prefix + a + prefix + b + suffix` strips to `a + b` (so `{{a{{b}}` names `ab`) |
| NoMissingInterpolationKeys.VariablesOf | lib/rules/no-missing-interpolation-keys.js:103-112 | there is one variable per match |
| NoMissingInterpolationKeys.Variables | lib/rules/no-missing-interpolation-keys.js:96-112 | the trimmed names of the text's placeholders, one per match, in order, under the delimiters in force |
| NoMissingInterpolationKeys.VariableOf | lib/rules/no-missing-interpolation-keys.js:103-112 | the variable of one match: the match with every delimiter removed (`Strip`), then trimmed; `StripPlaceholder`, `StripNestedPrefix` and `SpacesTrimmed` pin it down |
| NoMissingInterpolationKeys.ArgumentKeys | lib/rules/no-missing-interpolation-keys.js:115-120 | there is one key per property when the second argument is an object expression, and no key otherwise |
| NoMissingInterpolationKeys.KeyOf | lib/rules/no-missing-interpolation-keys.js:119 | `p.key.name` of one property: the key's name, and undefined for a key without a name. A spread never reaches this `map`, because the handler has already returned at lines 80-89; the model gives it `None` only so the function is total |
| NoMissingInterpolationKeys.Missing | lib/rules/no-missing-interpolation-keys.js:122-126 | every missing variable is a variable that no key names |
| NoMissingInterpolationKeys.MissingCounts | lib/rules/no-missing-interpolation-keys.js:122-126 | a variable no key names is missing as often as it occurs, and a named one never |
| NoMissingInterpolationKeys.NoKeysAllMissing | lib/rules/no-missing-interpolation-keys.js:122-126 | with no keys, every variable is missing, in order |
| NoMissingInterpolationKeys.NoneMissingIffAllNamed | lib/rules/no-missing-interpolation-keys.js:122-126 | nothing is missing exactly when every variable is named by a key |
| NoMissingInterpolationKeys.MoreKeysFewerMissing | lib/rules/no-missing-interpolation-keys.js:122-126 | more keys never make more variables missing |
| NoMissingInterpolationKeys.OutcomeOf | lib/rules/no-missing-interpolation-keys.js:60-127 | the handler's early returns in order (name gate, unknown keys, falsy value), the throw on a value that is not a string, and otherwise the missing variables; `CheckedIff` and the lemmas beside it state what it decides |
| NoMissingInterpolationKeys.IsTranslationCall | lib/rules/no-missing-interpolation-keys.js:63-68 | the callee has a `name` that is `t` or a configured function name, so member callees never qualify; `MemberCalleeSkipped` and `UnlistedCalleeSkipped` state it |
| NoMissingInterpolationKeys.KeysUnknown | lib/rules/no-missing-interpolation-keys.js:70-89 | there is a second argument and it is an identifier, or an object expression with a spread property; `IdentifierValuesSkipped` and `SpreadValuesSkipped` state it |
| NoMissingInterpolationKeys.ReportMissing | lib/rules/no-missing-interpolation-keys.js:122-126 | the loop reports once per missing variable, each report on the node with the rule's message |
| NoMissingInterpolationKeys.OnTextInCall | lib/rules/no-missing-interpolation-keys.js:60-127 | the handler throws exactly when the outcome is `Throws`, and reports once per missing variable when the variables are checked, and never otherwise |
| NoMissingInterpolationKeysProperties.CheckedIff | lib/rules/no-missing-interpolation-keys.js:63-94 | the variables are checked exactly for a translation call with knowable keys whose value is a non-empty string |
| NoMissingInterpolationKeysProperties.MemberCalleeSkipped | lib/rules/no-missing-interpolation-keys.js:63-68 | a call through a member expression is never checked, because its callee has no `name` |
| NoMissingInterpolationKeysProperties.UnlistedCalleeSkipped | lib/rules/no-missing-interpolation-keys.js:63-68 | a function other than `t` and the configured names is skipped |
| NoMissingInterpolationKeysProperties.IdentifierValuesSkipped | lib/rules/no-missing-interpolation-keys.js:71-77 | a second argument that is an identifier skips the check |
| NoMissingInterpolationKeysProperties.SpreadValuesSkipped | lib/rules/no-missing-interpolation-keys.js:80-89 | an object with a spread skips the check |
| NoMissingInterpolationKeysProperties.FalsyValueSkipped | lib/rules/no-missing-interpolation-keys.js:91-94 | a falsy value skips the check |
| NoMissingInterpolationKeysProperties.NonStringValueThrows | lib/rules/no-missing-interpolation-keys.js:91-102 | a truthy value that is not a string makes the handler throw |
| NoMissingInterpolationKeysProperties.ReportsPerPlaceholder | lib/rules/no-missing-interpolation-keys.js:102-126 | a variable no key names is reported as many times as its placeholders occur, and a named one never |
| NoMissingInterpolationKeysProperties.NoValuesAllReported | lib/rules/no-missing-interpolation-keys.js:114-126 | without a second argument, or with a second argument that is not an object expression (such as a string), every variable of the text is reported |
| NoMissingInterpolationKeysProperties.ExtraKeysHarmless | lib/rules/no-missing-interpolation-keys.js:115-126 | for any arguments whose second is an object expression, adding properties to it never reports a variable more often, nor adds to the number of reports |
| NoMissingInterpolationKeysProperties.AllNamedNothingReported | lib/rules/no-missing-interpolation-keys.js:115-126 | when every variable is a key, nothing is reported |
| NoMissingInterpolationKeysProperties.VariablesStep | lib/rules/no-missing-interpolation-keys.js:102-112 | when the prefix and the suffix begin with different characters, plain text without the prefix's first character, a placeholder whose inner text holds neither the prefix's first character nor any suffix character, and the rest yield the placeholder's trimmed inner text, then the rest's variables |
| NoMissingInterpolationKeysProperties.VariablesNone | lib/rules/no-missing-interpolation-keys.js:102-112 | text in which the prefix cannot begin has no variables |
| NoMissingInterpolationKeysProperties.HiNameVariables | lib/rules/no-missing-interpolation-keys.js:96-112 | `'Hi {{name}}'` names exactly the variable `name` |
| NoMissingInterpolationKeysProperties.SpacesTrimmed | lib/rules/no-missing-interpolation-keys.js:103-112 | `'With {{ name }}'` names `name`, without the spaces |
| NoMissingInterpolationKeysProperties.RepeatedVariable | lib/rules/no-missing-interpolation-keys.js:102-112 | `'{{a}} {{a}}'` names `a` twice |
| NoMissingInterpolationKeysProperties.CustomDelimiters | lib/rules/no-missing-interpolation-keys.js:44-45 | with `[[`/`]]` delimiters, `{{...}}` is plain text and only `[[name]]` is a variable |
| NoMissingInterpolationKeysProperties.TextOnlyCall | lib/rules/no-missing-interpolation-keys.js:60-126 | a translation call with only a non-empty string reports every variable of the string |
| NoMissingInterpolationKeysProperties.TextAndKeyCall | lib/rules/no-missing-interpolation-keys.js:60-126 | a call with a string and a one-key object reports the variables other than that key |
| NoMissingInterpolationKeysProperties.HiNameReported | lib/rules/no-missing-interpolation-keys.js:60-126 | `t('Hi {{name}}')` reports `name` once |
| NoMissingInterpolationKeysProperties.HiNameNamed | lib/rules/no-missing-interpolation-keys.js:60-126 | `t('Hi {{name}}', { name: 'Bob' })` reports nothing |
| NoMissingInterpolationKeysProperties.HiNameUserSkipped | lib/rules/no-missing-interpolation-keys.js:71-77 | `t('Hi {{name}}', user)` is skipped |
| NoMissingInterpolationKeysProperties.UnconfiguredFunctionSkipped | lib/rules/no-missing-interpolation-keys.js:63-68 | `someFunction('Hi {{name}}')` is skipped without options |
| NoMissingInterpolationKeysProperties.ConfiguredFunctionChecked | lib/rules/no-missing-interpolation-keys.js:63-68 | `someFunction('Hi {{name}}')` is checked and reports `name` once `someFunction` is configured |
| NoMissingInterpolationKeysProperties.RepeatedReportedTwice | lib/rules/no-missing-interpolation-keys.js:122-126 | `t('{{a}} {{a}}')` reports twice |
| NoMissingInterpolationKeysProperties.LeadingExpressionSkipped | lib/rules/no-missing-interpolation-keys.js:91-94 | `` t(`${value} under`) `` is skipped: its first chunk is empty |
| NoMissingInterpolationKeysProperties.NumberThrows | lib/rules/no-missing-interpolation-keys.js:91-102 | `t(5)` throws |
| NoDynamicTranslationKeys.CalleeName | lib/rules/no-dynamic-translation-keys.js:43-46 | a member callee is known by its property's name, an identifier by its own, and anything else by no name |
| NoDynamicTranslationKeys.IsTranslationCallee | lib/rules/no-dynamic-translation-keys.js:48-50 | the resolved callee name is `t` or a configured function name; `UnnamedNeverReported` and `Check` state what follows |
| NoDynamicTranslationKeys.Check | lib/rules/no-dynamic-translation-keys.js:42-65 | at most one report, on the call with the rule's message, exactly when a translation call's first argument is missing or not a static key |
| NoDynamicTranslationKeys.IsStaticKey | lib/rules/no-dynamic-translation-keys.js:52-62 | a literal of any type, or a template with no expressions |
| NoDynamicTranslationKeys.OnCall | lib/rules/no-dynamic-translation-keys.js:42-65 | the handler on a call node of the tree: `Check` on its callee and arguments, anchored on the call |
| NoDynamicTranslationKeys.OnlyFirstArgument | lib/rules/no-dynamic-translation-keys.js:52-62 | the arguments after the key do not matter |
| NoDynamicTranslationKeys.UnnamedNeverReported | lib/rules/no-dynamic-translation-keys.js:48-50 | a call whose callee has no name is never reported |
| NoDynamicTranslationKeys.NoArgumentReported | lib/rules/no-dynamic-translation-keys.js:52-64 | a translation call with no argument is reported |
| NoDynamicTranslationKeys.LiteralAccepted | lib/rules/no-dynamic-translation-keys.js:52-54 | a literal key of any value is accepted |
| NoDynamicTranslationKeys.TemplateAcceptedIffNoExpressions | lib/rules/no-dynamic-translation-keys.js:56-62 | a template key is accepted exactly when it embeds no expression |
| NoDynamicTranslationKeys.ObjectPathIgnored | lib/rules/no-dynamic-translation-keys.js:43-46 | the object a member call goes through does not change the decision |
| NoDynamicTranslationKeys.MemberCalleeExamples | lib/rules/no-dynamic-translation-keys.js:42-65 | `utils.i18.next.t(key)` is reported, and `i18n.translate('Hello {{name}}', ...)` is accepted once `translate` is configured |
| NoDynamicTranslationKeys.DynamicKeyExamples | lib/rules/no-dynamic-translation-keys.js:42-65 | `t(key)`, `t(...keys)`, `` t(`Hello ${name}`) ``, `t('Hello' + ' there!')` and `translate(greeting)` with the option are reported; `someFunction(arg)` is not |

## Left out

- The rules' `meta` objects and JSON option schemas are not modelled. A missing top-level option list is the empty list, as the `|| []` defaults make it.
- The entries of `ignoreFunctionsOnObjects` and `ignoreAttributesOnElements` are assumed to carry all their lists. The schema does not require `objects`, `elements` or `attributes`, and the source throws a `TypeError` at `i.objects.includes`, `i.elements.includes` or `i.attributes.includes` when one is missing. The model treats every entry as complete, so it does not model that throw. A missing `functions` is modelled, as `None`.
- ESLint's parser, its selector engine and its traversal are not modelled. The tree is given as an arena of nodes, a selector is the `Selects` predicate of its listener, and the traversal is a sequence of enter and exit events that `ValidEvents` constrains.
- `context.report` is modelled as appending a `Diagnostic` (node and message) to a sequence. Report locations are not modelled.
- The entry handlers of `no-string-literal` are modelled as query methods that return whether they would mark the literal. `Pass.OnEnter` runs them all and adds the node to `visited` once. The source may call `visited.add` on one node several times, which changes nothing more.
- `visited` is a `WeakSet` of nodes in the source and a set of node indices here.
- Namespaced JSX names (`<svg:rect>`, `xlink:href`) are not modelled: there `name.name` is a node, not a string. A member-expression tag such as `<Foo.Bar>` has no tag name, as in the source.
- Object spreads written as `SpreadElement`, the node type newer parsers produce, are not modelled. Only `ExperimentalSpreadProperty` is, as `SpreadMember`. A `SpreadElement` would make `p.key.name` throw.
- NoMissingInterpolationKeys.Scan: models the one pattern the rule builds, not a general regular-expression engine. `EscapeRegexIsLiteral` shows that the escaped delimiters only ever stand for themselves.
- Regular-expression literals are an opaque `Obj` value. Only their truthiness and type matter to the rules.
- Characters are Dafny `char`s. UTF-16 surrogate pairs and case folding beyond ASCII are not modelled. The `i` flag is only applied to the ASCII URL prefixes.
- Numbers are integers. NaN, floating point and BigInt literals are not modelled.
- `lib/rules/no-hardcoded-date-formatting.js` is unfinished in the repository and is not part of this model.
- `lib/index.js` only exports the rules and is not part of this model.
- The tests use ESLint's `RuleTester`. Their cases are restated as example lemmas instead.
