/**
 * The navigation tree held by a `Nav`: a Python dict whose values are either
 * `True` (the segment is active) or a nested dict, together with the pure
 * operations on it that `Nav` and the `nav` directive use: truth-testing,
 * indexing, `str.split('.')`, and the single chain of one-key dicts that a
 * declaration builds.
 */
module NavTree {
  import opened Wrappers

  /** `Leaf(b)` is a Python bool; `Sub(m)` is a dict from segment to value. */
  datatype Val = Leaf(b: bool) | Sub(entries: map<string, Val>)

  /** Why indexing a tree value fails: a missing key raises `KeyError`,
      indexing `True` raises `TypeError`. */
  datatype IndexError = KeyNotFound(key: string) | NotSubscriptable

  /** Python truth value: a bool is itself, a dict is true when it has entries. */
  predicate Truthy(v: Val) {
    match v
    case Leaf(b) => b
    case Sub(m) => |m| > 0
  }

  /** `tree or {}`: a false value is replaced by a fresh empty dict. */
  function Normalized(v: Val): (r: Val)
    ensures Truthy(r) ==> r == v
    ensures !Truthy(r) ==> r == Sub(map[]) && !Truthy(v)
  {
    if Truthy(v) then v else Sub(map[])
  }

  /** `tree[key]`: the raw value under `key`. */
  function Child(v: Val, key: string): (r: Result<Val, IndexError>)
    ensures r.Ok? <==> v.Sub? && key in v.entries
    ensures r.Ok? ==> r.value == v.entries[key]
    ensures r.Err? && v.Sub? ==> r.error == KeyNotFound(key)
    ensures r.Err? && v.Leaf? ==> r.error == NotSubscriptable
  {
    match v
    case Leaf(_) => Err(NotSubscriptable)
    case Sub(m) => if key in m then Ok(m[key]) else Err(KeyNotFound(key))
  }

  /** `nav[k0][k1]...[kn]`: index the views one key after another, each view
      holding the normalized child tree. */
  function Walk(v: Val, keys: seq<string>): (r: Result<Val, IndexError>)
    ensures keys == [] ==> r == Ok(v)
    ensures r.Ok? && keys != [] ==> Truthy(r.value) || r.value == Sub(map[])
  {
    if keys == [] then Ok(v)
    else
      match Walk(v, keys[..|keys| - 1])
      case Err(e) => Err(e)
      case Ok(w) =>
        match Child(w, keys[|keys| - 1])
        case Err(e) => Err(e)
        case Ok(c) => Ok(Normalized(c))
  }

  // ---------------------------------------------------------------------
  // str.split(sep) and its inverse sep.join(parts)

  /** Number of occurrences of `c` in `s`. */
  function Occurrences(s: string, c: char): nat
  {
    if s == [] then 0 else (if s[0] == c then 1 else 0) + Occurrences(s[1..], c)
  }

  /** Python's `s.split(sep)` for a one-character separator: the pieces between
      separators, empty pieces included, so that it never returns an empty list. */
  function Split(s: string, sep: char): (parts: seq<string>)
    ensures |parts| == Occurrences(s, sep) + 1
    ensures forall i :: 0 <= i < |parts| ==> sep !in parts[i]
  {
    if s == [] then [""]
    else
      var tail := Split(s[1..], sep);
      if s[0] == sep then [""] + tail
      else [[s[0]] + tail[0]] + tail[1..]
  }

  /** Python's `sep.join(parts)`. */
  function Join(parts: seq<string>, sep: char): string
    requires |parts| >= 1
  {
    if |parts| == 1 then parts[0] else parts[0] + [sep] + Join(parts[1..], sep)
  }

  /** Joining the pieces of a split gives back the original string. */
  lemma {:induction false} JoinSplit(s: string, sep: char)
    ensures Join(Split(s, sep), sep) == s
  {
    if s != [] {
      var tail := Split(s[1..], sep);
      JoinSplit(s[1..], sep);
      if s[0] != sep && |tail| > 1 {
        assert Join(tail, sep) == tail[0] + [sep] + Join(tail[1..], sep);
        assert tail[1..] == ([[s[0]] + tail[0]] + tail[1..])[1..];
      }
    }
  }

  /** Splitting `p + rest`, where `p` has no separator, glues `p` to the first piece. */
  lemma {:induction false} SplitPrefix(p: string, rest: string, sep: char)
    requires sep !in p
    ensures Split(p + rest, sep) == [p + Split(rest, sep)[0]] + Split(rest, sep)[1..]
  {
    if p != [] {
      var r := Split(rest, sep);
      assert (p + rest)[0] == p[0] != sep;
      assert (p + rest)[1..] == p[1..] + rest;
      SplitPrefix(p[1..], rest, sep);
      var tail := Split(p[1..] + rest, sep);
      assert tail[0] == p[1..] + r[0] && tail[1..] == r[1..];
      assert p + rest != [];
      assert Split(p + rest, sep) == [[p[0]] + tail[0]] + tail[1..];
      assert [p[0]] + (p[1..] + r[0]) == p + r[0];
    } else {
      var r := Split(rest, sep);
      assert p + rest == rest;
      assert p + r[0] == r[0];
      assert [r[0]] + r[1..] == r;
    }
  }

  /** Splitting a join of separator-free pieces gives back those pieces. */
  lemma {:induction false} SplitJoin(parts: seq<string>, sep: char)
    requires |parts| >= 1
    requires forall i :: 0 <= i < |parts| ==> sep !in parts[i]
    ensures Split(Join(parts, sep), sep) == parts
  {
    if |parts| == 1 {
      SplitPrefix(parts[0], "", sep);
      assert parts[0] + "" == parts[0];
    } else {
      var rest := Join(parts[1..], sep);
      SplitJoin(parts[1..], sep);
      SplitPrefix(parts[0], [sep] + rest, sep);
      assert parts[0] + [sep] + rest == parts[0] + ([sep] + rest);
      assert ([sep] + rest)[1..] == rest;
      assert Split([sep] + rest, sep) == [""] + parts[1..];
      assert parts[0] + "" == parts[0];
    }
  }

  // ---------------------------------------------------------------------
  // The single chain built by a declaration

  /** The tree `{p0: {p1: ... {pn: True}}}`; `[]` gives the bare `True`. */
  function Nest(parts: seq<string>): (v: Val)
    ensures Truthy(v)
  {
    if parts == [] then Leaf(true) else Sub(map[parts[0] := Nest(parts[1..])])
  }

  /** A tree that is one path of one-key dicts ending in `True`. */
  ghost predicate IsChain(v: Val)
  {
    match v
    case Leaf(b) => b
    case Sub(m) => |m| == 1 && forall k :: k in m ==> IsChain(m[k])
  }

  /** The segments along a chain, from the outermost key to the innermost. */
  ghost function ChainKeys(v: Val): seq<string>
    requires IsChain(v)
  {
    match v
    case Leaf(_) => []
    case Sub(m) =>
      var k :| k in m;
      [k] + ChainKeys(m[k])
  }

  /** Every nested chain is a chain, and reading its keys gives back the segments. */
  lemma {:induction false} NestIsChain(parts: seq<string>)
    ensures IsChain(Nest(parts))
    ensures ChainKeys(Nest(parts)) == parts
  {
    if parts != [] {
      NestIsChain(parts[1..]);
      var m := Nest(parts).entries;
      assert m.Keys == {parts[0]};
    }
  }

  /** Conversely every chain is the nesting of its own keys. */
  lemma {:induction false} ChainIsNest(v: Val)
    requires IsChain(v)
    ensures Nest(ChainKeys(v)) == v
  {
    match v
    case Leaf(_) =>
    case Sub(m) =>
      var k :| k in m;
      var others := m.Keys - {k};
      assert m.Keys == others + {k};
      assert others == {};
      assert ChainKeys(v) == [k] + ChainKeys(m[k]);
      ChainIsNest(m[k]);
      assert m == map[k := m[k]];
  }

  /** Indexing a declared chain along its first `k` segments reaches the rest of
      the chain, which is true; any other key at that level is missing. */
  lemma {:induction false} NestPrefixes(parts: seq<string>, k: nat, other: string)
    requires k < |parts|
    ensures Walk(Nest(parts), parts[..k]) == Ok(Nest(parts[k..]))
    ensures Truthy(Nest(parts[k..]))
    ensures other != parts[k] ==> Walk(Nest(parts), parts[..k] + [other]) == Err(KeyNotFound(other))
  {
    if k > 0 {
      NestPrefixes(parts, k - 1, other);
      assert parts[..k][..k - 1] == parts[..k - 1];
      assert parts[k - 1..][1..] == parts[k..];
    }
    assert (parts[..k] + [other])[..k] == parts[..k];
  }

  /** Indexing along all segments reaches `True`, and indexing one step further
      fails because `True` is not a dict. */
  lemma {:induction false} NestLeaf(parts: seq<string>, other: string)
    ensures Walk(Nest(parts), parts) == Ok(Leaf(true))
    ensures Walk(Nest(parts), parts + [other]) == Err(NotSubscriptable)
  {
    if parts != [] {
      var k := |parts| - 1;
      NestPrefixes(parts, k, other);
      assert parts[..k + 1] == parts;
      assert parts[k..][1..] == [];
    }
    assert (parts + [other])[..|parts|] == parts;
  }
}
