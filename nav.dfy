/**
 * The `Nav` object, the template context it is bound in, and the `{% nav %}`
 * directive's `render` step (django_navtag/templatetags/navtag.py).
 *
 * Template variable resolution (`FilterExpression.resolve`) is outside the
 * model: `Render` receives the already resolved item and text as strings.
 */
module Navigation {
  import opened Wrappers
  import opened NavTree

  /** Raised by the tag: Django's `TemplateSyntaxError` with its message. */
  datatype TagError = SyntaxError(message: string)

  /** A value bound in a context frame. `NoneValue` is Python's `None` (also what
      a lookup of an unbound name yields); `Other(id)` is any object that is not
      a `Nav`, `id` standing for its identity. Equality of values is Python's `is`. */
  datatype Value = NoneValue | NavRef(nav: Nav) | Other(id: nat)

  /** What reading `Nav._text` yields: the root's text, or the view's own tree. */
  datatype Shown = TextValue(text: string) | TreeValue(tree: Val)

  class Nav {
    /** `_tree`: the (sub)tree this view looks at. */
    var tree: Val
    /** `_root`: the object that carries the text shared by all views. */
    var root: Nav?
    /** `_text_value`; `None` while the attribute has never been set. */
    var textValue: Option<string>

    ghost predicate Valid()
      reads this
    {
      root != null
    }

    /** `Nav(tree, root)`: `root or self` takes `self` also when `root` is a
        falsy `Nav`, and `tree or {}` stores a fresh empty dict for a falsy tree. */
    constructor (tree: Val, root: Nav?)
      ensures Valid()
      ensures this.tree == Normalized(tree)
      ensures this.root == (if root != null && Truthy(root.tree) then root else this)
      ensures textValue == None
    {
      this.tree := Normalized(tree);
      this.root := root;
      this.textValue := None;
      new;
      if root == null || !Truthy(root.tree) {
        this.root := this;
      }
    }

    /** `bool(nav)`. */
    predicate NonEmpty()
      reads this
      ensures NonEmpty() <==> tree == Leaf(true) || (tree.Sub? && tree.entries != map[])
    {
      Truthy(tree)
    }

    /** `nav._text`: the root's text once set, otherwise this view's tree. */
    function Text(): (s: Shown)
      reads this, root
      requires Valid()
      ensures root.textValue.Some? ==> s == TextValue(root.textValue.value)
      ensures root.textValue.None? ==> s == TreeValue(tree)
    {
      if root.textValue.Some? then TextValue(root.textValue.value) else TreeValue(tree)
    }

    /** `nav[key]`: a new view over the child tree that shares this view's root
        (unless that root is falsy, in which case the view is its own root). */
    method Index(key: string) returns (r: Result<Nav, IndexError>)
      requires Valid()
      ensures r.Ok? <==> tree.Sub? && key in tree.entries
      ensures r.Err? ==> Child(tree, key) == Err(r.error)
      ensures r.Ok? ==> fresh(r.value) && r.value.Valid() && r.value.textValue == None
      ensures r.Ok? ==> r.value.tree == Normalized(tree.entries[key])
      ensures r.Ok? ==> r.value.root == (if Truthy(root.tree) then root else r.value)
    {
      var c := Child(tree, key);
      if c.Err? {
        return Err(c.error);
      }
      var view := new Nav(c.value, root);
      return Ok(view);
    }

    /** `nav._text = value`: stores the text on the root, so every view sharing
        that root reads it back; no tree changes. */
    method SetText(value: string)
      requires Valid()
      modifies root`textValue
      ensures root.textValue == Some(value)
      ensures Text() == TextValue(value)
      ensures forall w: Nav :: w.root == root ==> w.Text() == TextValue(value)
    {
      root.textValue := Some(value);
    }

    /** `nav.clear()`: rebinds the tree to a fresh empty dict. */
    method Clear()
      modifies this`tree
      ensures tree == Sub(map[])
      ensures !NonEmpty()
    {
      tree := Sub(map[]);
    }

    /** `nav.update(entries)`: `dict.update` merges the entries, later keys
        overriding; on a tree that is `True` it raises (`ok` is false) and
        nothing changes. */
    method Update(entries: map<string, Val>) returns (ok: bool)
      modifies this`tree
      ensures ok <==> old(tree).Sub?
      ensures ok ==> tree == Sub(old(tree).entries + entries)
      ensures ok ==> forall k :: k in entries ==> k in tree.entries && tree.entries[k] == entries[k]
      ensures !ok ==> tree == old(tree)
    {
      ok := tree.Sub?;
      if ok {
        tree := Sub(tree.entries + entries);
      }
    }
  }

  /** One dict of a Django context's stack. */
  class Frame {
    var entries: map<string, Value>

    constructor (entries: map<string, Value>)
      ensures this.entries == entries
    {
      this.entries := entries;
    }

    /** `dict.get(name)`. */
    function Get(name: string): Value
      reads this
    {
      if name in entries then entries[name] else NoneValue
    }
  }

  /** Frame `i` binds `name` and no frame inside it does. */
  ghost predicate InnermostBinding(frames: seq<Frame>, name: string, i: int)
    reads frames
  {
    0 <= i < |frames| && name in frames[i].entries &&
    forall j :: i < j < |frames| ==> name !in frames[j].entries
  }

  /** `Context.get(name)`: the binding in the innermost frame that has one. */
  function Lookup(frames: seq<Frame>, name: string): (v: Value)
    reads frames
    ensures (forall i :: 0 <= i < |frames| ==> name !in frames[i].entries) ==> v == NoneValue
    ensures forall i :: InnermostBinding(frames, name, i) ==> v == frames[i].entries[name]
  {
    if frames == [] then NoneValue
    else if name in frames[|frames| - 1].entries then frames[|frames| - 1].entries[name]
    else
      var outer := frames[..|frames| - 1];
      assert forall i :: InnermostBinding(frames, name, i) ==> InnermostBinding(outer, name, i);
      Lookup(outer, name)
  }

  /** The stack of frames of a Django template context; `dicts[0]` is the
      outermost frame (the builtins), the last one the innermost. */
  class Context {
    var dicts: seq<Frame>

    ghost predicate Valid()
      reads this
    {
      |dicts| >= 1
    }

    /** `Context(initial)`: a fresh builtins frame, then `initial` if given. */
    constructor (initial: Option<map<string, Value>>)
      ensures Valid()
      ensures |dicts| == if initial.Some? then 2 else 1
      ensures fresh(dicts[0]) && dicts[0].entries == Builtins()
      ensures initial.Some? ==> fresh(dicts[1]) && dicts[1].entries == initial.value
    {
      var builtins := new Frame(Builtins());
      if initial.Some? {
        var f := new Frame(initial.value);
        dicts := [builtins, f];
      } else {
        dicts := [builtins];
      }
    }

    /** `context.update(entries)`: pushes a new innermost frame. */
    method Push(entries: map<string, Value>)
      requires Valid()
      modifies this
      ensures Valid()
      ensures |dicts| == |old(dicts)| + 1 && dicts[..|dicts| - 1] == old(dicts)
      ensures fresh(dicts[|dicts| - 1]) && dicts[|dicts| - 1].entries == entries
    {
      var f := new Frame(entries);
      dicts := dicts + [f];
    }
  }

  /** Django's builtins frame `{'True': True, 'False': False, 'None': None}`. */
  function Builtins(): map<string, Value>
  {
    map["True" := Other(1), "False" := Other(0), "None" := NoneValue]
  }

  // ---------------------------------------------------------------------
  // The directive

  /** A parsed `{% nav %}` tag (`NavNode`). `item` and `text` are the template
      expressions (compiled filter expressions), kept as their source tokens. */
  datatype NavNode = NavNode(item: Option<string>, varName: string, text: Option<string>)

  /** `NavNode(item, var_for, var_text)`: the variable name is `var_for or 'nav'`. */
  function NewNavNode(item: Option<string>, varFor: Option<string>, varText: Option<string>): (node: NavNode)
    ensures node.item == item && node.text == varText
    ensures node.varName != ""
    ensures varFor.Some? && varFor.value != "" ==> node.varName == varFor.value
    ensures varFor.None? || varFor.value == "" ==> node.varName == "nav"
  {
    NavNode(item, if varFor.Some? && varFor.value != "" then varFor.value else "nav", varText)
  }

  /** The binding of `name` in the outermost frame. */
  function Bound(ctx: Context, name: string): Value
    reads ctx, ctx.dicts
    requires ctx.Valid()
  {
    ctx.dicts[0].Get(name)
  }

  /** The `Nav` bound in the outermost frame, if any. */
  function BoundNavs(ctx: Context, name: string): set<Nav>
    reads ctx, ctx.dicts
    requires ctx.Valid()
  {
    var v := Bound(ctx, name);
    if v.NavRef? then {v.nav} else {}
  }

  /** The root of the `Nav` bound in the outermost frame, if any. */
  function BoundRoots(ctx: Context, name: string): set<Nav>
    reads ctx, ctx.dicts, BoundNavs(ctx, name)
    requires ctx.Valid()
  {
    var v := Bound(ctx, name);
    if v.NavRef? && v.nav.root != null then {v.nav.root} else {}
  }

  /** The tree a render starts from: the bound `Nav`'s, or the empty tree of the
      `Nav` it creates. */
  function TreeBefore(ctx: Context, name: string): Val
    reads ctx, ctx.dicts, BoundNavs(ctx, name)
    requires ctx.Valid()
  {
    var v := Bound(ctx, name);
    if v.NavRef? then v.nav.tree else Sub(map[])
  }

  /** The text a render starts from: the bound `Nav`'s root's, or none. */
  function TextBefore(ctx: Context, name: string): Option<string>
    reads ctx, ctx.dicts, BoundNavs(ctx, name), BoundRoots(ctx, name)
    requires ctx.Valid()
  {
    var v := Bound(ctx, name);
    if v.NavRef? && v.nav.root != null then v.nav.root.textValue else None
  }

  /** `node` sets the active item: it has an item and no text argument. */
  predicate Declares(node: NavNode)
  {
    node.item.Some? && node.text.None?
  }

  /** The tree after a successful render of `node` on a `Nav` whose tree was
      `tree`, the item resolving to `item`: only a declaring node on a falsy
      `Nav` rebuilds the tree, as the chain of the dot-separated segments. */
  function DeclareEffect(node: NavNode, tree: Val, item: string): (r: Val)
    ensures !Declares(node) || Truthy(tree) ==> r == tree
    ensures Declares(node) && !Truthy(tree) ==> IsChain(r) && |ChainKeys(r)| >= 1 && Join(ChainKeys(r), '.') == item
    ensures Declares(node) && !Truthy(tree) ==> ChainKeys(r) == Split(item, '.')
    ensures Declares(node) ==> Truthy(r)
  {
    if Declares(node) && !Truthy(tree) then
      var r := Nest(Split(item, '.'));
      NestIsChain(Split(item, '.'));
      JoinSplit(item, '.');
      r
    else tree
  }

  /** The message of the error raised when the variable was rebound. */
  function AlteredMessage(name: string): string
  {
    "'" + name + "' variable has been altered in current context"
  }

  /** The loop of `render` that turns the dotted item into nested one-key dicts,
      innermost first: `{p0: {p1: ... {pn: True}}}`. */
  method BuildChain(item: string) returns (newItem: map<string, Val>)
    ensures Sub(newItem) == Nest(Split(item, '.'))
  {
    var parts := Split(item, '.');
    var value := Leaf(true);
    newItem := map[];
    var i := |parts|;
    while i > 0
      invariant 0 <= i <= |parts|
      invariant value == Nest(parts[i..])
      invariant i < |parts| ==> value == Sub(newItem)
    {
      i := i - 1;
      newItem := map[parts[i] := value];
      value := Sub(newItem);
      assert parts[i..][1..] == parts[i + 1..];
    }
  }

  /** `NavNode.render(context)`, with the resolved item and text. */
  method Render(node: NavNode, ctx: Context, item: string, text: string) returns (r: Result<string, TagError>)
    requires ctx.Valid()
    requires forall n :: n in BoundNavs(ctx, node.varName) ==> n.Valid()
    modifies ctx`dicts, BoundNavs(ctx, node.varName)`tree, BoundRoots(ctx, node.varName)`textValue
    ensures ctx.Valid()
    // the outermost binding must be the one visible through the whole stack
    ensures r.Err? <==> old(Bound(ctx, node.varName)) != old(Lookup(ctx.dicts, node.varName))
    ensures r.Err? ==> r.error == SyntaxError(AlteredMessage(node.varName))
    ensures r.Err? ==> ctx.dicts == old(ctx.dicts)
    ensures r.Err? ==> forall n :: n in old(BoundNavs(ctx, node.varName)) ==> n.tree == old(n.tree)
    ensures r.Err? ==> forall n :: n in old(BoundRoots(ctx, node.varName)) ==> n.textValue == old(n.textValue)
    // a successful render outputs nothing and leaves a Nav bound in the outermost frame
    ensures r.Ok? ==> r.value == ""
    ensures r.Ok? ==> Bound(ctx, node.varName).NavRef? && Bound(ctx, node.varName).nav.Valid()
    ensures r.Ok? && old(Bound(ctx, node.varName)).NavRef? ==>
      ctx.dicts == old(ctx.dicts) && Bound(ctx, node.varName) == old(Bound(ctx, node.varName))
    // otherwise the outermost frame is replaced by a copy that binds a fresh Nav
    ensures r.Ok? && !old(Bound(ctx, node.varName)).NavRef? ==>
      |ctx.dicts| == |old(ctx.dicts)| && ctx.dicts[1..] == old(ctx.dicts[1..]) &&
      ctx.dicts[0] != old(ctx.dicts[0]) && fresh(ctx.dicts[0]) &&
      ctx.dicts[0].entries == old(ctx.dicts[0].entries)[node.varName := Bound(ctx, node.varName)] &&
      fresh(Bound(ctx, node.varName).nav) && Bound(ctx, node.varName).nav.root == Bound(ctx, node.varName).nav
    ensures r.Ok? && old(Bound(ctx, node.varName)).NavRef? ==>
      Bound(ctx, node.varName).nav.root == old(Bound(ctx, node.varName).nav.root)
    // the tree and the text afterwards
    ensures r.Ok? ==>
      Bound(ctx, node.varName).nav.tree == DeclareEffect(node, old(TreeBefore(ctx, node.varName)), item)
    ensures r.Ok? ==>
      Bound(ctx, node.varName).nav.root.textValue ==
        if node.text.Some? then Some(text) else old(TextBefore(ctx, node.varName))
  {
    var name := node.varName;
    var first := ctx.dicts[0];
    var bound := first.Get(name);
    if bound != Lookup(ctx.dicts, name) {
      return Err(SyntaxError(AlteredMessage(name)));
    }
    var nav: Nav;
    if bound.NavRef? {
      nav := bound.nav;
    } else {
      nav := new Nav(Sub(map[]), null);
      // the outermost frame may be shared with other contexts: bind in a copy
      var copy := new Frame(first.entries[name := NavRef(nav)]);
      ctx.dicts := ctx.dicts[0 := copy];
    }
    assert Bound(ctx, name) == NavRef(nav);
    if node.text.Some? {
      nav.SetText(text);
      return Ok("");
    }
    if node.item.None? {
      return Ok("");
    }
    if nav.NonEmpty() {
      // the first declaration wins
      return Ok("");
    }
    var newItem := BuildChain(item);
    nav.Clear();
    var _ := nav.Update(newItem);
    assert nav.tree == Sub(newItem);
    return Ok("");
  }
  // ---------------------------------------------------------------------
  // Several directives for one variable, rendered in evaluation order

  /** The tree of a `Nav` after the directives `steps` (each a node and its
      resolved item) are rendered on it one after the other. */
  function DeclareAll(tree: Val, steps: seq<(NavNode, string)>): (r: Val)
    ensures Truthy(r) || r == tree
    decreases steps
  {
    if steps == [] then tree
    else DeclareAll(DeclareEffect(steps[0].0, tree, steps[0].1), steps[1..])
  }

  /** Once the tree is truthy, no later directive changes it. */
  lemma {:induction false} SettledTreeStays(tree: Val, steps: seq<(NavNode, string)>)
    requires Truthy(tree)
    ensures DeclareAll(tree, steps) == tree
  {
    if steps != [] {
      SettledTreeStays(tree, steps[1..]);
    }
  }

  /** First declaration wins: starting from a falsy `Nav`, the tree ends up as
      the chain of the first declaring directive's item, whatever follows. */
  lemma {:induction false} FirstDeclarationWins(tree: Val, steps: seq<(NavNode, string)>, i: nat)
    requires !Truthy(tree)
    requires i < |steps| && Declares(steps[i].0)
    requires forall j :: 0 <= j < i ==> !Declares(steps[j].0)
    ensures DeclareAll(tree, steps) == Nest(Split(steps[i].1, '.'))
  {
    if i == 0 {
      SettledTreeStays(Nest(Split(steps[0].1, '.')), steps[1..]);
    } else {
      assert DeclareEffect(steps[0].0, tree, steps[0].1) == tree;
      FirstDeclarationWins(tree, steps[1..], i - 1);
    }
  }

  /** Without any declaring directive a falsy tree stays as it is. */
  lemma {:induction false} NoDeclarationKeepsTree(tree: Val, steps: seq<(NavNode, string)>)
    requires forall j :: 0 <= j < |steps| ==> !Declares(steps[j].0)
    ensures DeclareAll(tree, steps) == tree
  {
    if steps != [] {
      NoDeclarationKeepsTree(tree, steps[1..]);
    }
  }
}
