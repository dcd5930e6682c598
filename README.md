# django-navtag: the `{% nav %}` tag, modelled in Dafny

django-navtag adds a `{% nav %}` template tag to Django. A page template declares
which navigation item is active (`{% nav "products.phones" %}`), and the base
template it extends tests that state (`{% if nav.products %}`) or prints a
stored marker (`{% nav text ' class="active"' %}` … `{{ nav.products }}`).
Because a child template's blocks are evaluated before its parent's, the first
declaration reached wins.

The model covers the whole tag module `django_navtag/templatetags/navtag.py`:

- **`NavTree`** (`tree.dfy`). The tree a `Nav` holds is a value
  `Val = Leaf(bool) | Sub(map<string, Val>)`. The module also has Python
  truth-testing, indexing, `str.split('.')` and its inverse `'.'.join`, and the
  single chain of one-key dicts that a declaration builds. The lemmas cover the
  split/join round trip, the chain shape in both directions, and which views
  along a declared path exist.
- **`Navigation`** (`nav.dfy`). `Nav` is a class. Its fields are `tree`, `root`
  and `textValue`. `SetText`, `Clear` and `Update` change them in place;
  `Index` returns a new view. A Django context is a `Context` holding a sequence of `Frame` objects,
  so copying frame 0 is visible as a fresh object. `Render` is
  `NavNode.render`. `BuildChain` is its loop that nests the dotted segments.
  `DeclareEffect` and `DeclareAll` give the tree after one directive, and after
  several directives run in evaluation order.
- **`NavTagParser`** (`parser.dfy`). `ParseNav` is the `nav` compile function,
  a loop over the tag's tokens, with the two fixes listed under Findings
  applied. It is proved against a declarative `WellFormed` predicate. `ParseAsWritten` is the same function exactly as the
  code has it (see Findings).
- **`Scenarios`** (`scenarios.dfy`). The repository's tests and docstring
  examples, replayed as methods whose postconditions state what the test
  asserts.

Two behaviours of the code to note:

- An item that resolves to the empty string builds `{'': True}`. That tree is
  truthy, not an empty falsy tree, so it blocks later declarations
  (`Scenarios.EmptyItem`).
- `Nav(tree, root)` keeps `root or self`. A view whose given root has an empty
  tree becomes its own root, so it does not share that root's text.

## Model

| member | source | states |
|---|---|---|
| `NavTree.Normalized` | django_navtag/templatetags/navtag.py:14 | `tree or {}`: a truthy tree is kept, any falsy one becomes the empty dict |
| `NavTree.Child` | django_navtag/templatetags/navtag.py:16-17 | `tree[key]` succeeds exactly when the tree is a dict holding `key`; otherwise it raises `KeyError(key)` for a dict and `TypeError` for `True` |
| `NavTree.Split` | django_navtag/templatetags/navtag.py:84 | `item.split('.')` has one more piece than the item has dots, never fewer than one piece, and no piece contains a dot |
| `NavTree.JoinSplit` | django_navtag/templatetags/navtag.py:84 | joining the pieces of `item.split('.')` with dots gives back the item |
| `NavTree.SplitJoin` | django_navtag/templatetags/navtag.py:84 | splitting a dot-join of dot-free pieces gives back those pieces, so split is injective |
| `NavTree.Nest` | django_navtag/templatetags/navtag.py:81-87 | the nested one-key dicts ending in `True` are always truthy |
| `NavTree.NestIsChain` | django_navtag/templatetags/navtag.py:79-90 | the built tree is a single chain of one-key dicts, and reading its keys from the outside in gives back the segments |
| `NavTree.ChainIsNest` | django_navtag/templatetags/navtag.py:79-90 | conversely, every single chain ending in `True` is the nesting of its own keys |
| `NavTree.NestPrefixes` | django_navtag/templatetags/navtag.py:16-17 | indexing a declared chain along its first k segments gives the rest of the chain, which is truthy; any other key at that level raises `KeyError` |
| `NavTree.NestLeaf` | django_navtag/templatetags/navtag.py:16-17 | indexing along all segments reaches `True`, and one step further raises `TypeError` |
| `NavTree.Walk` | django_navtag/templatetags/navtag.py:16-17 | `nav[k0]...[kn]`: no keys gives the view itself, and every view reached by indexing holds a truthy tree or the empty dict, never a falsy value |
| `Navigation.Nav.NonEmpty` | django_navtag/templatetags/navtag.py:22-26 | `bool(nav)` is true exactly when the tree is `True` or a non-empty dict |
| `Navigation.Nav.Text` | django_navtag/templatetags/navtag.py:28-31 | `nav._text` is the root's text once one is set, and this view's own tree before that |
| `Navigation.Nav.constructor` | django_navtag/templatetags/navtag.py:12-14 | the root is the given root when that root is truthy, otherwise the new object itself; the tree is normalized; no text is set |
| `Navigation.Nav.Index` | django_navtag/templatetags/navtag.py:16-17 | gives a fresh view over the normalized child tree, sharing the root (itself if the root is falsy), or the indexing error, exactly when `Child` fails |
| `Navigation.Nav.SetText` | django_navtag/templatetags/navtag.py:28-36 | the text is stored on the root, and every view with that root then reads it back as text; no tree changes |
| `Navigation.Nav.Clear` | django_navtag/templatetags/navtag.py:38-39 | the tree becomes the empty dict and the view is falsy |
| `Navigation.Nav.Update` | django_navtag/templatetags/navtag.py:41-42 | `dict.update` merges the entries and the new ones win; on a `True` tree it fails and changes nothing |
| `Navigation.Lookup` | django_navtag/templatetags/navtag.py:55 | `context.get(name)` returns the binding of the innermost frame that binds `name`, and `None` when no frame does |
| `Navigation.NewNavNode` | django_navtag/templatetags/navtag.py:47-50 | the variable name is the `for` value, or `nav` when it is absent or empty; it is never empty |
| `Navigation.DeclareEffect` | django_navtag/templatetags/navtag.py:67-90 | a text directive, a bare directive, or any directive on a truthy `Nav` leaves the tree unchanged. A declaration on a falsy `Nav` leaves a truthy single chain whose keys are `item.split('.')`, so they dot-join back to the item |
| `Navigation.BuildChain` | django_navtag/templatetags/navtag.py:79-88 | the `reversed(item.split('.'))` loop yields exactly the nesting of the segments |
| `Navigation.Render` | django_navtag/templatetags/navtag.py:52-91 | raises the "altered" `TemplateSyntaxError` exactly when frame 0's binding is not the binding visible through the whole stack, and then changes nothing. On success it outputs `''`. If no `Nav` was bound, frame 0 is replaced by a fresh copy that adds only a fresh self-rooted `Nav`, and the other frames and the old frame object stay as they were. The tree becomes `DeclareEffect` of the old tree, and the root's text becomes the resolved text exactly for a text directive |
| `Navigation.DeclareAll` | django_navtag/templatetags/navtag.py:136-138 | the tree after several directives run in evaluation order is either truthy or the starting tree unchanged |
| `Navigation.SettledTreeStays` | django_navtag/templatetags/navtag.py:75-77 | once the tree is truthy, no later directive changes it |
| `Navigation.FirstDeclarationWins` | django_navtag/templatetags/navtag.py:75-90 | starting from a falsy `Nav`, directives run in order leave the chain of the first declaring directive's item |
| `Navigation.NoDeclarationKeepsTree` | django_navtag/templatetags/navtag.py:67-73 | text and bare directives alone never change the tree |
| `NavTagParser.ScanStep` | django_navtag/templatetags/navtag.py:161-170 | reading one more trailing pair whose key is still available keeps the loop state consistent: keys known, recorded with their values, none twice |
| `NavTagParser.ScanBreak` | django_navtag/templatetags/navtag.py:164-166 | a trailing key that is unknown or already used makes the tag malformed |
| `NavTagParser.ScanDone` | django_navtag/templatetags/navtag.py:172-181 | after the loop, the tag is well formed exactly when an item, if any, comes without `text` |
| `NavTagParser.ParseNav` | django_navtag/templatetags/navtag.py:156-183 | accepts exactly the well-formed tags: trailing `for`/`text` pairs, each at most once, with no `text` beside an item. Otherwise it raises "Unexpected format for … tag". The node's item is the second token when the token count is even, its text is the `text` value, and its variable is the `for` value (default `nav`) |
| `NavTagParser.PopPairs` | django_navtag/templatetags/navtag.py:161-170 | the loop leaves a non-empty prefix of the tokens, shorter by an even number of tokens |
| `NavTagParser.ParseAsWritten` | django_navtag/templatetags/navtag.py:156-183 | the code as written: its only error is "Unexpected format for … tag", and an accepted node always has a variable name |
| `NavTagParser.PopPairsWellFormed` | django_navtag/templatetags/navtag.py:161-170 | on a well-formed tag the loop never stops early and records every pair |
| `NavTagParser.AsWrittenAcceptsWellFormed` | django_navtag/templatetags/navtag.py:156-183 | the code as written accepts every well-formed tag and builds the same node as `ParseNav`: the same item, the same text and the same variable name |
| `NavTagParser.PopPairsScan` | django_navtag/templatetags/navtag.py:161-170 | from any consistent loop state, the loop either reads every pair and records it, or stops at a key that is unknown or already used, with every later pair recorded |
| `NavTagParser.AsWrittenErrWhenStoppedAtFirst` | django_navtag/templatetags/navtag.py:172-181 | as written, the tag raises exactly when the loop stopped early with only the tag name left |
| `NavTagParser.StoppedAtFirstIsRejected` | django_navtag/templatetags/navtag.py:161-166 | a loop that stops at the first pair leaves an odd token count, known and distinct later keys, and a first key that is unknown or repeats a later one |
| `NavTagParser.RejectedStopsAtFirst` | django_navtag/templatetags/navtag.py:161-166 | conversely, on such a tag the loop stops at the first pair and nowhere else |
| `NavTagParser.AsWrittenRejects` | django_navtag/templatetags/navtag.py:156-181 | as written, a tag raises "Unexpected format" exactly when its token count is odd, every key after the first pair is known and distinct, and the first pair's key is unknown or repeats a later key |
| `NavTagParser.AsWrittenRejectsUnexpected` | django_navtag/templatetags/navtag.py:156-181 | as written, `{% nav 'test' unexpected %}` raises "Unexpected format for nav tag" |
| `NavTagParser.AsWrittenAcceptsItemless` | django_navtag/templatetags/navtag.py:172-175 | as written, `{% nav for a bogus x %}` is malformed yet accepted, with `for` taken for the item |
| `NavTagParser.NodeKwargNames` | django_navtag/templatetags/navtag.py:170 | the loop stores each pair under `var_` followed by its key, so every stored name starts with `var_` |
| `NavTagParser.TextNeverStoredUnderText` | django_navtag/templatetags/navtag.py:170-174 | no stored name is `text`, so the test `'text' not in node_kwargs` always passes |
| `NavTagParser.AsWrittenAcceptsAnyItem` | django_navtag/templatetags/navtag.py:172-183 | as written, every tag with an item (an even token count) is accepted, with that item, whatever pairs follow it |
| `NavTagParser.AsWrittenAcceptsItemWithText` | django_navtag/templatetags/navtag.py:172-174 | as written, `{% nav "x" text "y" %}` is malformed yet accepted with both an item and a text |
| `NavTagParser.AsWrittenAcceptsRepeatedFor` | django_navtag/templatetags/navtag.py:172-174 | as written, `{% nav "x" for a for b %}` is malformed yet accepted, with `for b` in effect |
| `NavTagParser.AsWrittenIgnoresUnknownKey` | django_navtag/templatetags/navtag.py:172-174 | as written, `{% nav "x" y bogus z %}` is malformed yet accepted, and the extra tokens are dropped |
| `Scenarios.CompileBanana` | django_navtag/tests/test_navtag.py:8-13 | `{% nav "banana" %}` compiles to a node with that item under `nav` |
| `Scenarios.CompileBananaForOthernav` | django_navtag/tests/test_navtag.py:15-20 | `{% nav "banana" for othernav %}` compiles to a node under `othernav` |
| `Scenarios.CompileEmpty` | django_navtag/tests/test_navtag.py:113-117 | `{% nav %}` compiles to a bare node under `nav` |
| `Scenarios.CompileEmptyForSidenav` | django_navtag/tests/test_navtag.py:119-122 | `{% nav for sidenav %}` compiles to a bare node under `sidenav` |
| `Scenarios.CompileText` | django_navtag/tests/test_navtag.py:130-134 | `{% nav text "THIS" %}` compiles to a text node without an item |
| `Scenarios.InvalidArgs` | django_navtag/tests/test_navtag.py:106-111 | `{% nav 'test' unexpected %}` raises "Unexpected format for nav tag", both in the corrected parser and in the code as written |
| `Scenarios.AsWrittenCompilesBanana` | django_navtag/tests/test_navtag.py:8-13 | the code as written compiles `{% nav "banana" %}` to the same node as `ParseNav` |
| `Scenarios.AsWrittenCompilesBananaForOthernav` | django_navtag/tests/test_navtag.py:15-20 | the code as written compiles `{% nav "banana" for othernav %}` to the same node as `ParseNav` |
| `Scenarios.AsWrittenCompilesEmpty` | django_navtag/tests/test_navtag.py:113-117 | the code as written compiles `{% nav %}` to a bare node under `nav` |
| `Scenarios.AsWrittenCompilesEmptyForSidenav` | django_navtag/tests/test_navtag.py:119-122 | the code as written compiles `{% nav for sidenav %}` to a bare node under `sidenav` |
| `Scenarios.AsWrittenCompilesText` | django_navtag/tests/test_navtag.py:130-134 | the code as written compiles `{% nav text "THIS" %}` to a text node without an item |
| `Scenarios.BasicTemplate` | django_navtag/tests/test_navtag.py:42-46 | after `{% nav "banana" %}`, `nav.banana` is true and `nav.apple` is false |
| `Scenarios.ForTemplate` | django_navtag/tests/test_navtag.py:48-52 | with `for othernav`, `othernav.banana` is true, `othernav.apple` false, and `nav` stays unbound |
| `Scenarios.EmptyTag` | django_navtag/tests/test_navtag.py:113-117 | `{% nav %}` renders `''` and binds a falsy `Nav` |
| `Scenarios.EmptyTagForSidenav` | django_navtag/tests/test_navtag.py:119-122 | `{% nav for sidenav %}` renders `''` and binds a falsy `Nav` |
| `Scenarios.YellIfContextVariableChanged` | django_navtag/tests/test_navtag.py:124-128 | with `nav` shadowed in an inner frame, rendering raises the "altered" error |
| `Scenarios.NavText` | django_navtag/tests/test_navtag.py:130-134 | `{% nav text "THIS" %}` renders `''`, stores the text and leaves the `Nav` falsy |
| `Scenarios.DefaultTextLeaf` | django_navtag/tests/test_navtag.py:149-155 | without text, `{{ nav.fruit }}` after `{% nav "fruit" %}` shows `True` |
| `Scenarios.DefaultTextSubtree` | django_navtag/tests/test_navtag.py:157-162 | without text, `{{ nav.fruit }}` after `{% nav "fruit.banana" %}` shows `{'banana': True}` |
| `Scenarios.FirstDeclarationWinsTemplate` | django_navtag/templatetags/navtag.py:136-138 | `{% nav "banana" %}` followed by `{% nav "apple" %}` leaves `banana` selected and `apple` not |
| `Scenarios.TextThroughViews` | django_navtag/templatetags/navtag.py:140-147 | text set before the declaration is read back through `nav.fruit` and `nav.fruit.banana` |
| `Scenarios.ScopeIsolation` | django_navtag/templatetags/navtag.py:60-65 | a declaration in one context leaves `nav` unbound in another context sharing the same outermost frame |
| `Scenarios.EmptyItem` | django_navtag/templatetags/navtag.py:79-90 | an item resolving to `''` builds `{'': True}`, which is truthy and blocks a later `{% nav "home" %}` |
| `Scenarios.DeclaresSegment` | django_navtag/templatetags/navtag.py:79-90 | declaring an item without dots on an empty tree builds exactly `{item: True}` |
| `Scenarios.DeclaresFruitBanana` | django_navtag/templatetags/navtag.py:149-154 | declaring `fruit.banana` on an empty tree builds `{fruit: {banana: True}}` |
| `Scenarios.DeclaresABC` | django_navtag/templatetags/navtag.py:79-90 | declaring `a.b.c` on an empty tree builds exactly `{a: {b: {c: True}}}` |
| `Scenarios.Submenu` | django_navtag/templatetags/navtag.py:149-154 | after `{% nav "a.b.c" %}`, the views `nav.a`, `nav.a.b` and `nav.a.b.c` are true and `nav.apple` is false |

## Left out

- Template variable resolution (`parser.compile_filter`, `FilterExpression.resolve`) and `smart_str` are not modelled. A node keeps the item and text as their source tokens, and `Render` receives the resolved item and text as strings. An item that resolves to nothing is passed as `''`, which the code then treats as `''`.
- `Nav.__str__` (`mark_safe`, `six.text_type`, the exact `str()` of a dict) is left out. `Nav.Text` returns the value that would be printed: the text, or the tree.
- `Navigation.Nav.Update`: takes a single mapping, not `*args, **kwargs`. A view's tree is a value, so updating a view does not reach the dict it shares with its parent in Python. `Render` never depends on that sharing, because it calls `clear()`, which rebinds the tree, before `update()`.
- `Navigation.Render`: requires the bound `Nav` to have a root (`Valid()`). Every `Nav` the constructor makes has one, as every Python `Nav` has `_root`.
- `NavTagParser.ParseNav`: the `keys` dict's flag (whether to compile the value) is not modelled, since compilation is opaque. It also requires at least one token, because `split_contents()` always yields the tag name.
- `NavNode.__repr__` returns a constant string, and no property depends on it.
- Django's context machinery is modelled only as far as the tag uses it: the frame stack, `get`, `update`, and the builtins frame.
- Evaluation order across inherited templates is modelled as a sequence of directives (`DeclareAll`), not through the template loader.
- Link rendering (`navlink`), `!` patterns and `contains` appear only in the tests, with no code in the module. They are not modelled.
- `deploy.py`, `setup.py` and the test settings are release and packaging scripts with no part in the tag.

## Findings

| source | as written | input that shows it | evidently intended | confidence | as-written member | corrected member |
|---|---|---|---|---|---|---|
| django_navtag/templatetags/navtag.py:170-174 | the pairs are stored as `var_for` and `var_text`, but the item check tests for the name `text`, which is never present | `{% nav "x" text "y" %}` is accepted with both an item and a text (`AsWrittenAcceptsItemWithText`). In fact no tag with an item is ever rejected (`AsWrittenAcceptsAnyItem`) | `'var_text' not in node_kwargs`: a tag with both an item and `text` raises "Unexpected format" | medium, not executed | `NavTagParser.ParseAsWritten` | `NavTagParser.ParseNav` |
| django_navtag/templatetags/navtag.py:172-181 | when an item remains after the argument loop, `ok = 'text' not in node_kwargs` overwrites the `ok = False` set when the loop stopped at an unknown or repeated key | `{% nav "x" for a for b %}` is accepted with `for b`, `{% nav "x" y bogus z %}` is accepted with item `"x"`, and `{% nav for a bogus x %}` is accepted with item `for` (`AsWrittenAcceptsRepeatedFor`, `AsWrittenIgnoresUnknownKey`, `AsWrittenAcceptsItemless`). Only a tag whose first pair is bad is rejected (`AsWrittenRejects`) | `ok = ok and 'text' not in node_kwargs`: all three tags raise "Unexpected format" | medium, not executed | `NavTagParser.ParseAsWritten` | `NavTagParser.ParseNav` |
