/**
 * Template runs from the repository's tests, replayed on the model: each
 * method builds a context, renders `{% nav %}` directives in evaluation order
 * and reports what the template's `{% if nav.x %}` / `{{ nav.x }}` would see.
 */
module Scenarios {
  import opened Wrappers
  import opened NavTree
  import opened Navigation
  import opened NavTagParser

  /** Declaring a single segment on an empty tree builds `{key: True}`. */
  lemma DeclaresSegment(node: NavNode, key: string)
    requires Declares(node) && '.' !in key
    ensures DeclareEffect(node, Sub(map[]), key) == Sub(map[key := Leaf(true)])
  {
    assert Join([key], '.') == key;
    SplitJoin([key], '.');
    assert Nest([key]) == Sub(map[key := Nest([])]);
  }

  /** Declaring "fruit.banana" on an empty tree builds `{fruit: {banana: True}}`. */
  lemma DeclaresFruitBanana(node: NavNode)
    requires Declares(node)
    ensures DeclareEffect(node, Sub(map[]), "fruit.banana") == Sub(map["fruit" := Sub(map["banana" := Leaf(true)])])
  {
    assert Join(["fruit", "banana"], '.') == "fruit.banana";
    SplitJoin(["fruit", "banana"], '.');
  }

  /** Declaring "a.b.c" on an empty tree builds `{a: {b: {c: True}}}`. */
  lemma DeclaresABC(node: NavNode)
    requires Declares(node)
    ensures DeclareEffect(node, Sub(map[]), "a.b.c") == Sub(map["a" := Sub(map["b" := Sub(map["c" := Leaf(true)])])])
  {
    assert Join(["a", "b", "c"], '.') == "a.b.c";
    SplitJoin(["a", "b", "c"], '.');
  }

  /** The first render of a template: `node` on a fresh context holding only
      the builtins frame binds a fresh self-rooted `Nav` in a copy of it. */
  method RenderOnFresh(node: NavNode, item: string, text: string) returns (ctx: Context, nav: Nav, out: string)
    ensures out == ""
    ensures fresh(ctx) && fresh(nav) && ctx.Valid() && |ctx.dicts| == 1
    ensures ctx.dicts[0].entries == Builtins()[node.varName := NavRef(nav)]
    ensures Bound(ctx, node.varName) == NavRef(nav) && InnermostBinding(ctx.dicts, node.varName, 0)
    ensures nav.Valid() && nav.root == nav
    ensures nav.tree == DeclareEffect(node, Sub(map[]), item)
    ensures nav.textValue == if node.text.Some? then Some(text) else None
  {
    ctx := new Context(None);
    assert Bound(ctx, node.varName) == Lookup(ctx.dicts, node.varName);
    assert !Bound(ctx, node.varName).NavRef?;
    var r := Render(node, ctx, item, text);
    nav := Bound(ctx, node.varName).nav;
    out := r.value;
  }

  /** `{% if nav.key %}`: a missing key or a non-dict tree reads as false. */
  method IfSelected(nav: Nav, key: string) returns (b: bool)
    requires nav.Valid()
    ensures b <==> nav.tree.Sub? && key in nav.tree.entries && Truthy(nav.tree.entries[key])
  {
    var view := nav.Index(key);
    b := view.Ok? && view.value.NonEmpty();
  }

  /** Compiling `{% nav "banana" %}`. */
  method CompileBanana() returns (node: NavNode)
    ensures node == NavNode(Some("\"banana\""), "nav", None)
  {
    var r := ParseNav(["nav", "\"banana\""]);
    node := r.value;
  }

  /** Compiling `{% nav "banana" for othernav %}`. */
  method CompileBananaForOthernav() returns (node: NavNode)
    ensures node == NavNode(Some("\"banana\""), "othernav", None)
  {
    var bits := ["nav", "\"banana\"", "for", "othernav"];
    assert KeyAt(bits, 2) && bits[2] == "for" && bits[3] == "othernav";
    assert forall i :: KeyAt(bits, i) ==> i == 2;
    var r := ParseNav(bits);
    node := r.value;
  }

  /** Compiling `{% nav %}`. */
  method CompileEmpty() returns (node: NavNode)
    ensures node == NavNode(None, "nav", None)
  {
    var r := ParseNav(["nav"]);
    node := r.value;
  }

  /** Compiling `{% nav for sidenav %}`. */
  method CompileEmptyForSidenav() returns (node: NavNode)
    ensures node == NavNode(None, "sidenav", None)
  {
    var bits := ["nav", "for", "sidenav"];
    assert KeyAt(bits, 1) && bits[1] == "for" && bits[2] == "sidenav";
    assert forall i :: KeyAt(bits, i) ==> i == 1;
    var r := ParseNav(bits);
    node := r.value;
  }

  /** Compiling `{% nav text "THIS" %}`. */
  method CompileText() returns (node: NavNode)
    ensures node == NavNode(None, "nav", Some("\"THIS\""))
  {
    var bits := ["nav", "text", "\"THIS\""];
    assert KeyAt(bits, 1) && bits[1] == "text" && bits[2] == "\"THIS\"";
    assert forall i :: KeyAt(bits, i) ==> i == 1;
    var r := ParseNav(bits);
    node := r.value;
  }

  /** The tag function as written compiles the test tags above to the same
      nodes: `{% nav "banana" %}`... */
  lemma AsWrittenCompilesBanana()
    ensures ParseAsWritten(["nav", "\"banana\""]) == Ok(NavNode(Some("\"banana\""), "nav", None))
  {
    TextNeverStoredUnderText(map[]);
  }

  /** ...`{% nav "banana" for othernav %}`... */
  lemma AsWrittenCompilesBananaForOthernav()
    ensures ParseAsWritten(["nav", "\"banana\"", "for", "othernav"]) == Ok(NavNode(Some("\"banana\""), "othernav", None))
  {
    var bits := ["nav", "\"banana\"", "for", "othernav"];
    assert bits[..2] == ["nav", "\"banana\""];
    TextNeverStoredUnderText(map["for" := "othernav"]);
  }

  /** ...`{% nav %}`... */
  lemma AsWrittenCompilesEmpty()
    ensures ParseAsWritten(["nav"]) == Ok(NavNode(None, "nav", None))
  {
  }

  /** ...`{% nav for sidenav %}`... */
  lemma AsWrittenCompilesEmptyForSidenav()
    ensures ParseAsWritten(["nav", "for", "sidenav"]) == Ok(NavNode(None, "sidenav", None))
  {
    var bits := ["nav", "for", "sidenav"];
    assert bits[..1] == ["nav"];
  }

  /** ...and `{% nav text "THIS" %}`. */
  lemma AsWrittenCompilesText()
    ensures ParseAsWritten(["nav", "text", "\"THIS\""]) == Ok(NavNode(None, "nav", Some("\"THIS\"")))
  {
    var bits := ["nav", "text", "\"THIS\""];
    assert bits[..1] == ["nav"];
  }

  /** `{% nav 'test' unexpected %}` is rejected when the template compiles. */
  method InvalidArgs() returns (r: Result<NavNode, TagError>)
    ensures r == Err(SyntaxError("Unexpected format for nav tag"))
    ensures ParseAsWritten(["nav", "'test'", "unexpected"]) == r
  {
    var bits := ["nav", "'test'", "unexpected"];
    AsWrittenRejectsUnexpected();
    assert KeyAt(bits, 1) && bits[1] !in Keys;
    r := ParseNav(bits);
    assert FormatMessage(bits) == "Unexpected format for nav tag";
  }

  /** `{% nav "banana" %}` on a fresh context, then `nav.apple` and `nav.banana`. */
  method BasicTemplate() returns (apple: bool, banana: bool)
    ensures !apple && banana
  {
    var node := CompileBanana();
    var ctx, nav, _ := RenderOnFresh(node, "banana", "");
    DeclaresSegment(node, "banana");
    assert nav.tree == Sub(map["banana" := Leaf(true)]);
    apple := IfSelected(nav, "apple");
    banana := IfSelected(nav, "banana");
  }

  /** `{% nav "banana" for othernav %}`: the state goes to `othernav`, `nav`
      stays unbound. */
  method ForTemplate() returns (apple: bool, banana: bool, navBound: bool)
    ensures !apple && banana && !navBound
  {
    var node := CompileBananaForOthernav();
    var ctx, nav, _ := RenderOnFresh(node, "banana", "");
    DeclaresSegment(node, "banana");
    assert nav.tree == Sub(map["banana" := Leaf(true)]);
    assert |ctx.dicts| == 1 && "nav" !in ctx.dicts[0].entries;
    apple := IfSelected(nav, "apple");
    banana := IfSelected(nav, "banana");
    navBound := Lookup(ctx.dicts, "nav") != NoneValue;
  }

  /** `{% nav %}` renders nothing; it only binds an empty, false `Nav`. */
  method EmptyTag() returns (out: string, declared: bool)
    ensures out == "" && !declared
  {
    var node := CompileEmpty();
    var ctx, nav, rendered := RenderOnFresh(node, "", "");
    out := rendered;
    declared := nav.NonEmpty();
  }

  /** `{% nav for sidenav %}` likewise, under `sidenav`. */
  method EmptyTagForSidenav() returns (out: string, declared: bool)
    ensures out == "" && !declared
  {
    var node := CompileEmptyForSidenav();
    var ctx, nav, rendered := RenderOnFresh(node, "", "");
    out := rendered;
    declared := nav.NonEmpty();
  }

  /** `nav` bound to "anything", then shadowed by "test" in an inner frame:
      rendering `{% nav "test" %}` raises and rebinds nothing. */
  method YellIfContextVariableChanged() returns (r: Result<string, TagError>)
    ensures r == Err(SyntaxError(AlteredMessage("nav")))
  {
    var ctx := new Context(Some(map["nav" := Other(10)]));
    ctx.Push(map["nav" := Other(11)]);
    assert Bound(ctx, "nav") == NoneValue;
    assert Lookup(ctx.dicts, "nav") == Other(11);
    r := Render(NavNode(Some("\"test\""), "nav", None), ctx, "test", "");
  }

  /** `{% nav text "THIS" %}` renders nothing and stores the text. */
  method NavText() returns (out: string, shown: Shown, declared: bool)
    ensures out == "" && shown == TextValue("THIS") && !declared
  {
    var node := CompileText();
    var ctx, nav, rendered := RenderOnFresh(node, "", "THIS");
    out := rendered;
    shown := nav.Text();
    declared := nav.NonEmpty();
  }

  /** Without any text, `{{ nav.fruit }}` shows the subtree: `True` after
      `{% nav "fruit" %}`... */
  method DefaultTextLeaf() returns (shown: Shown)
    ensures shown == TreeValue(Leaf(true))
  {
    var ctx, nav, _ := RenderOnFresh(NavNode(Some("\"fruit\""), "nav", None), "fruit", "");
    DeclaresSegment(NavNode(Some("\"fruit\""), "nav", None), "fruit");
    assert nav.tree == Sub(map["fruit" := Leaf(true)]) && nav.root == nav && nav.textValue == None;
    var fruit := nav.Index("fruit");
    shown := fruit.value.Text();
  }

  /** ...and `{'banana': True}` after `{% nav "fruit.banana" %}`. */
  method DefaultTextSubtree() returns (shown: Shown)
    ensures shown == TreeValue(Sub(map["banana" := Leaf(true)]))
  {
    var ctx, nav, _ := RenderOnFresh(NavNode(Some("\"fruit.banana\""), "nav", None), "fruit.banana", "");
    DeclaresFruitBanana(NavNode(Some("\"fruit.banana\""), "nav", None));
    assert nav.tree == Sub(map["fruit" := Sub(map["banana" := Leaf(true)])]);
    assert nav.root == nav && nav.textValue == None;
    var fruit := nav.Index("fruit");
    shown := fruit.value.Text();
  }

  /** A child template's `{% nav "banana" %}` runs before its parent's
      `{% nav "apple" %}`: the first one wins. */
  method FirstDeclarationWinsTemplate() returns (apple: bool, banana: bool)
    ensures !apple && banana
  {
    var first := NavNode(Some("\"banana\""), "nav", None);
    var ctx, nav, _ := RenderOnFresh(first, "banana", "");
    DeclaresSegment(first, "banana");
    assert nav.tree == Sub(map["banana" := Leaf(true)]);
    assert |ctx.dicts| == 1 && InnermostBinding(ctx.dicts, "nav", 0);
    var r2 := Render(NavNode(Some("\"apple\""), "nav", None), ctx, "apple", "");
    assert r2.Ok?;
    assert nav.tree == Sub(map["banana" := Leaf(true)]);
    apple := IfSelected(nav, "apple");
    banana := IfSelected(nav, "banana");
  }

  /** `{% nav text " class=\"active\"" %}{% nav "fruit.banana" %}`: the text is
      read back through any view, here `nav.fruit` and `nav.fruit.banana`. */
  method TextThroughViews() returns (fruit: Shown, banana: Shown)
    ensures fruit == TextValue(" class=\"active\"") && banana == fruit
  {
    var ctx, nav, _ := RenderOnFresh(NavNode(None, "nav", Some("' class=\"active\"'")), "", " class=\"active\"");
    assert nav.root == nav && nav.textValue == Some(" class=\"active\"");
    assert nav.tree == Sub(map[]);
    assert |ctx.dicts| == 1 && InnermostBinding(ctx.dicts, "nav", 0);
    var r2 := Render(NavNode(Some("\"fruit.banana\""), "nav", None), ctx, "fruit.banana", "");
    assert r2.Ok?;
    DeclaresFruitBanana(NavNode(Some("\"fruit.banana\""), "nav", None));
    assert nav.tree == Sub(map["fruit" := Sub(map["banana" := Leaf(true)])]);
    assert nav.root == nav && nav.textValue == Some(" class=\"active\"");
    var f := nav.Index("fruit");
    assert f.Ok? && f.value.root == nav && f.value.tree == Sub(map["banana" := Leaf(true)]);
    fruit := f.value.Text();
    var b := f.value.Index("banana");
    assert b.Ok? && b.value.root == nav;
    banana := b.value.Text();
  }

  /** Two contexts sharing their outermost frame: a declaration in one does not
      bind anything in the other, because the frame is copied, not modified. */
  method ScopeIsolation() returns (other: Value, declared: bool)
    ensures other == NoneValue && declared
  {
    var ctx := new Context(None);
    var sibling := new Context(None);
    sibling.dicts := ctx.dicts;
    assert Bound(ctx, "nav") == NoneValue == Lookup(ctx.dicts, "nav");
    assert Lookup(sibling.dicts, "nav") == NoneValue;
    var r := Render(NavNode(Some("\"home\""), "nav", None), ctx, "home", "");
    assert r.Ok?;
    declared := Bound(ctx, "nav").nav.NonEmpty();
    other := Lookup(sibling.dicts, "nav");
  }

  /** An item resolving to the empty string builds `{'': True}`, a true `Nav`,
      so a later `{% nav "home" %}` no longer applies. */
  method EmptyItem() returns (tree: Val, home: bool)
    ensures tree == Sub(map["" := Leaf(true)]) && Truthy(tree) && !home
  {
    var ctx, nav, _ := RenderOnFresh(NavNode(Some("page"), "nav", None), "", "");
    assert Split("", '.') == [""];
    assert nav.tree == Sub(map["" := Leaf(true)]);
    assert |ctx.dicts| == 1 && InnermostBinding(ctx.dicts, "nav", 0);
    var r2 := Render(NavNode(Some("\"home\""), "nav", None), ctx, "home", "");
    assert r2.Ok?;
    tree := nav.tree;
    home := IfSelected(nav, "home");
  }

  /** `{% nav "a.b.c" %}`: the tree is exactly `{a: {b: {c: True}}}`, each
      prefix view is true, and a sibling such as `apple` is absent. */
  method Submenu() returns (tree: Val, a: bool, ab: bool, abc: bool, apple: bool)
    ensures tree == Sub(map["a" := Sub(map["b" := Sub(map["c" := Leaf(true)])])])
    ensures a && ab && abc && !apple
  {
    var ctx, nav, _ := RenderOnFresh(NavNode(Some("\"a.b.c\""), "nav", None), "a.b.c", "");
    DeclaresABC(NavNode(Some("\"a.b.c\""), "nav", None));
    tree := nav.tree;
    assert tree == Sub(map["a" := Sub(map["b" := Sub(map["c" := Leaf(true)])])]);
    a := IfSelected(nav, "a");
    apple := IfSelected(nav, "apple");
    var va := nav.Index("a");
    ab := IfSelected(va.value, "b");
    var vab := va.value.Index("b");
    abc := IfSelected(vab.value, "c");
  }
}
