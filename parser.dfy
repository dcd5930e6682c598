/**
 * The `nav` tag compile function: turns the tag's tokens
 * (`token.split_contents()`, the tag name first) into a `NavNode`.
 *
 * The tokens after the name are `[item] (key value)*`; the pairs are read from
 * the end while more than two tokens remain, and each key must be `for` or
 * `text`, at most once. An item may not be combined with `text`.
 */
module NavTagParser {
  import opened Wrappers
  import opened Navigation

  const Keys: set<string> := {"for", "text"}

  /** Position `i` holds the key of one of the trailing key/value pairs. */
  predicate KeyAt(bits: seq<string>, i: int)
  {
    1 <= i < |bits| - 1 && (|bits| - i) % 2 == 0
  }

  /** The tokens the tag accepts: every key known, no key twice, and no `text`
      key when an item is present (an even number of tokens). */
  ghost predicate WellFormed(bits: seq<string>)
  {
    (forall i :: KeyAt(bits, i) ==> bits[i] in Keys) &&
    (forall i, j :: KeyAt(bits, i) && KeyAt(bits, j) && i < j ==> bits[i] != bits[j]) &&
    (|bits| % 2 == 0 ==> forall i :: KeyAt(bits, i) ==> bits[i] != "text")
  }

  /** The error raised for a malformed tag. */
  function FormatMessage(bits: seq<string>): string
    requires |bits| >= 1
  {
    "Unexpected format for " + bits[0] + " tag"
  }

  function KwArg(kwargs: map<string, string>, key: string): Option<string>
  {
    if key in kwargs then Some(kwargs[key]) else None
  }

  /** The state of the argument loop once the pairs from position `lo` on are
      read: each of them has a known key, recorded in `kwargs` with its value,
      no key comes twice, and `keys` holds the keys not yet used. */
  ghost predicate Scanned(bits: seq<string>, lo: int, keys: set<string>, kwargs: map<string, string>)
  {
    1 <= lo <= |bits| && (|bits| - lo) % 2 == 0 &&
    keys <= Keys && kwargs.Keys == Keys - keys &&
    (forall i :: KeyAt(bits, i) && i >= lo ==> bits[i] in kwargs && kwargs[bits[i]] == bits[i + 1]) &&
    (forall i, j :: KeyAt(bits, i) && KeyAt(bits, j) && lo <= i < j ==> bits[i] != bits[j]) &&
    (forall k :: k in kwargs ==> exists i :: KeyAt(bits, i) && i >= lo && bits[i] == k)
  }

  /** Reading one more pair whose key is still available keeps the loop state. */
  lemma ScanStep(bits: seq<string>, lo: int, keys: set<string>, kwargs: map<string, string>)
    requires Scanned(bits, lo, keys, kwargs) && lo > 2 && bits[lo - 2] in keys
    ensures Scanned(bits, lo - 2, keys - {bits[lo - 2]}, kwargs[bits[lo - 2] := bits[lo - 1]])
  {
    var key := bits[lo - 2];
    var kwargs' := kwargs[key := bits[lo - 1]];
    assert KeyAt(bits, lo - 2);
    forall k | k in kwargs' ensures exists i :: KeyAt(bits, i) && i >= lo - 2 && bits[i] == k {
      if k == key {
        assert KeyAt(bits, lo - 2) && bits[lo - 2] == k;
      }
    }
  }

  /** A pair whose key is unknown or already used makes the tokens malformed. */
  lemma ScanBreak(bits: seq<string>, lo: int, keys: set<string>, kwargs: map<string, string>)
    requires Scanned(bits, lo, keys, kwargs) && lo > 2 && bits[lo - 2] !in keys
    ensures !WellFormed(bits)
  {
    var key := bits[lo - 2];
    assert KeyAt(bits, lo - 2);
    if key in Keys {
      assert key in kwargs;
      var i :| KeyAt(bits, i) && i >= lo && bits[i] == key;
    }
  }

  /** When the loop has read every pair, the tokens are well formed exactly
      when the item, if any, comes without `text`. */
  lemma ScanDone(bits: seq<string>, lo: int, keys: set<string>, kwargs: map<string, string>)
    requires Scanned(bits, lo, keys, kwargs) && lo <= 2
    ensures lo > 1 <==> |bits| % 2 == 0
    ensures WellFormed(bits) <==> (lo > 1 ==> "text" !in kwargs)
    ensures forall i :: KeyAt(bits, i) ==> bits[i] in kwargs && kwargs[bits[i]] == bits[i + 1]
    ensures forall k :: k in kwargs ==> exists i :: KeyAt(bits, i) && bits[i] == k
  {
    assert forall i :: KeyAt(bits, i) ==> i >= lo;
  }

  /** `nav(parser, token)` as evidently intended: the item check keeps an
      earlier `ok = False` and tests the stored `text` pair (`kwargs` here is
      keyed by the bare key, so `"text" in kwargs` stands for `var_text`).
      `ParseAsWritten` is the code as written. */
  method ParseNav(bits: seq<string>) returns (r: Result<NavNode, TagError>)
    requires |bits| >= 1
    ensures r.Ok? <==> WellFormed(bits)
    ensures r.Err? ==> r.error == SyntaxError(FormatMessage(bits))
    ensures r.Ok? ==> r.value.item == if |bits| % 2 == 0 then Some(bits[1]) else None
    ensures r.Ok? ==> forall i :: KeyAt(bits, i) && bits[i] == "text" ==> r.value.text == Some(bits[i + 1])
    ensures r.Ok? ==> (forall i :: KeyAt(bits, i) ==> bits[i] != "text") ==> r.value.text == None
    ensures r.Ok? ==> forall i :: KeyAt(bits, i) && bits[i] == "for" ==>
      r.value == NewNavNode(r.value.item, Some(bits[i + 1]), r.value.text)
    ensures r.Ok? ==> (forall i :: KeyAt(bits, i) ==> bits[i] != "for") ==> r.value.varName == "nav"
  {
    var rest := bits;
    var ok := true;
    var keys := Keys;
    var kwargs: map<string, string> := map[];
    while |rest| > 2
      invariant rest == bits[..|rest|]
      invariant Scanned(bits, |rest|, keys, kwargs)
    {
      var value := rest[|rest| - 1];
      var key := rest[|rest| - 2];
      if key !in keys {
        ScanBreak(bits, |rest|, keys, kwargs);
        rest := rest[..|rest| - 2];
        ok := false;
        break;
      }
      ScanStep(bits, |rest|, keys, kwargs);
      rest := rest[..|rest| - 2];
      keys := keys - {key};
      kwargs := kwargs[key := value];
    }
    var item: Option<string> := None;
    if ok {
      ScanDone(bits, |rest|, keys, kwargs);
    }
    if |rest| > 1 {
      // A text argument takes no item.
      ok := ok && "text" !in kwargs;
      item := Some(rest[1]);
    }
    if !ok {
      return Err(SyntaxError(FormatMessage(bits)));
    }
    r := Ok(NewNavNode(item, KwArg(kwargs, "for"), KwArg(kwargs, "text")));
  }
  // ---------------------------------------------------------------------
  // The tag function as written

  /** The argument loop: pops a value and a key from the end while more than
      two tokens remain; stops with `false` at a key that is unknown or used. */
  function PopPairs(rest: seq<string>, keys: set<string>, kwargs: map<string, string>)
    : (out: (seq<string>, bool, map<string, string>))
    requires |rest| >= 1
    ensures 1 <= |out.0| <= |rest| && out.0 == rest[..|out.0|]
    ensures (|rest| - |out.0|) % 2 == 0
    decreases |rest|
  {
    if |rest| <= 2 then (rest, true, kwargs)
    else
      var value := rest[|rest| - 1];
      var key := rest[|rest| - 2];
      if key !in keys then (rest[..|rest| - 2], false, kwargs)
      else PopPairs(rest[..|rest| - 2], keys - {key}, kwargs[key := value])
  }

  /** The names under which the loop stores its pairs in `node_kwargs`:
      `var_for` and `var_text`. */
  function NodeKwargNames(kwargs: map<string, string>): (names: set<string>)
    ensures forall k :: k in kwargs ==> "var_" + k in names
    ensures forall n :: n in names ==> |n| >= 4 && n[..4] == "var_"
  {
    set k | k in kwargs :: "var_" + k
  }

  /** `nav(parser, token)` as written: when an item remains after the loop,
      `ok = 'text' not in node_kwargs` replaces the flag, discarding the
      `ok = False` of a loop that stopped at a bad key, and it tests the name
      `text` although the pair was stored as `var_text`. */
  function ParseAsWritten(bits: seq<string>): (r: Result<NavNode, TagError>)
    requires |bits| >= 1
    ensures r.Err? ==> r.error == SyntaxError(FormatMessage(bits))
    ensures r.Ok? ==> r.value.varName != ""
  {
    var (rest, ok, kwargs) := PopPairs(bits, Keys, map[]);
    var ok' := if |rest| > 1 then "text" !in NodeKwargNames(kwargs) else ok;
    if !ok' then Err(SyntaxError(FormatMessage(bits)))
    else Ok(NewNavNode(if |rest| > 1 then Some(rest[1]) else None, KwArg(kwargs, "for"), KwArg(kwargs, "text")))
  }

  /** On well-formed tokens the loop never stops early. */
  lemma {:induction false} PopPairsWellFormed(bits: seq<string>, rest: seq<string>, keys: set<string>, kwargs: map<string, string>)
    requires |rest| <= |bits| && rest == bits[..|rest|]
    requires Scanned(bits, |rest|, keys, kwargs) && WellFormed(bits)
    ensures PopPairs(rest, keys, kwargs).1
    ensures |PopPairs(rest, keys, kwargs).0| <= 2
    ensures Scanned(bits, |PopPairs(rest, keys, kwargs).0|, Keys - PopPairs(rest, keys, kwargs).2.Keys, PopPairs(rest, keys, kwargs).2)
    decreases |rest|
  {
    if |rest| > 2 {
      var key := rest[|rest| - 2];
      assert KeyAt(bits, |rest| - 2) && key == bits[|rest| - 2];
      assert key !in kwargs;
      assert key in keys;
      ScanStep(bits, |rest|, keys, kwargs);
      PopPairsWellFormed(bits, rest[..|rest| - 2], keys - {key}, kwargs[key := rest[|rest| - 1]]);
    } else {
      assert keys == Keys - kwargs.Keys;
    }
  }

  /** The code as written accepts every well-formed tag and builds the same
      node as `ParseNav`: the same item, text and variable name. */
  lemma AsWrittenAcceptsWellFormed(bits: seq<string>)
    requires |bits| >= 1 && WellFormed(bits)
    ensures ParseAsWritten(bits).Ok?
    ensures ParseAsWritten(bits).value.item == if |bits| % 2 == 0 then Some(bits[1]) else None
    ensures forall i :: KeyAt(bits, i) && bits[i] == "text" ==> ParseAsWritten(bits).value.text == Some(bits[i + 1])
    ensures (forall i :: KeyAt(bits, i) ==> bits[i] != "text") ==> ParseAsWritten(bits).value.text == None
    ensures forall i :: KeyAt(bits, i) && bits[i] == "for" ==>
      ParseAsWritten(bits).value == NewNavNode(ParseAsWritten(bits).value.item, Some(bits[i + 1]), ParseAsWritten(bits).value.text)
    ensures (forall i :: KeyAt(bits, i) ==> bits[i] != "for") ==> ParseAsWritten(bits).value.varName == "nav"
  {
    assert Scanned(bits, |bits|, Keys, map[]);
    assert bits == bits[..|bits|];
    PopPairsWellFormed(bits, bits, Keys, map[]);
    var out := PopPairs(bits, Keys, map[]);
    ScanDone(bits, |out.0|, Keys - out.2.Keys, out.2);
    TextNeverStoredUnderText(out.2);
    var item := if |out.0| > 1 then Some(out.0[1]) else None;
    assert ParseAsWritten(bits) == Ok(NewNavNode(item, KwArg(out.2, "for"), KwArg(out.2, "text")));
  }

  /** The loop stopped at the pair starting at `lo - 2`: every pair after it
      was read and recorded, and its key is unknown or already used. */
  ghost predicate StoppedAt(bits: seq<string>, lo: int, kwargs: map<string, string>)
  {
    lo > 2 && Scanned(bits, lo, Keys - kwargs.Keys, kwargs) && bits[lo - 2] !in Keys - kwargs.Keys
  }

  /** Where the argument loop ended with result `out`: when it ran out of pairs,
      every pair was read and recorded; when it stopped early, it stopped at a
      key that is unknown or used. */
  ghost predicate LoopEnd(bits: seq<string>, out: (seq<string>, bool, map<string, string>))
  {
    if out.1 then |out.0| <= 2 && Scanned(bits, |out.0|, Keys - out.2.Keys, out.2)
    else StoppedAt(bits, |out.0| + 2, out.2)
  }

  /** From any consistent loop state, the loop ends as `LoopEnd` says. */
  lemma {:induction false} PopPairsScan(bits: seq<string>, rest: seq<string>, keys: set<string>, kwargs: map<string, string>)
    requires |rest| <= |bits| && rest == bits[..|rest|]
    requires Scanned(bits, |rest|, keys, kwargs)
    ensures LoopEnd(bits, PopPairs(rest, keys, kwargs))
    decreases |rest|
  {
    assert keys == Keys - kwargs.Keys;
    if |rest| <= 2 {
      assert PopPairs(rest, keys, kwargs) == (rest, true, kwargs);
    } else {
      var key := rest[|rest| - 2];
      var shorter := rest[..|rest| - 2];
      assert key == bits[|rest| - 2] && |shorter| + 2 == |rest|;
      if key !in keys {
        assert PopPairs(rest, keys, kwargs) == (shorter, false, kwargs);
        assert StoppedAt(bits, |rest|, kwargs);
      } else {
        var keys', kwargs' := keys - {key}, kwargs[key := rest[|rest| - 1]];
        assert rest[|rest| - 1] == bits[|rest| - 1];
        ScanStep(bits, |rest|, keys, kwargs);
        assert shorter == bits[..|shorter|];
        PopPairsScan(bits, shorter, keys', kwargs');
        assert PopPairs(rest, keys, kwargs) == PopPairs(shorter, keys', kwargs');
      }
    }
  }

  /** The tags the code as written rejects: an odd number of tokens whose pairs
      after the first are all known and distinct, while the first pair's key is
      unknown or repeats a later one. */
  ghost predicate RejectedAsWritten(bits: seq<string>)
  {
    |bits| >= 3 && |bits| % 2 == 1 &&
    (forall i :: KeyAt(bits, i) && i >= 3 ==> bits[i] in Keys) &&
    (forall i, j :: KeyAt(bits, i) && KeyAt(bits, j) && 3 <= i < j ==> bits[i] != bits[j]) &&
    (bits[1] !in Keys || exists j :: KeyAt(bits, j) && j >= 3 && bits[j] == bits[1])
  }

  /** As written, the tag function raises exactly when the loop stopped early
      with nothing left but the tag name. */
  lemma AsWrittenErrWhenStoppedAtFirst(bits: seq<string>)
    requires |bits| >= 1
    ensures ParseAsWritten(bits).Err? <==>
      |PopPairs(bits, Keys, map[]).0| == 1 && !PopPairs(bits, Keys, map[]).1
  {
    TextNeverStoredUnderText(PopPairs(bits, Keys, map[]).2);
  }

  /** A loop that stops at the first pair leaves a `RejectedAsWritten` tag... */
  lemma StoppedAtFirstIsRejected(bits: seq<string>, kwargs: map<string, string>)
    requires StoppedAt(bits, 3, kwargs)
    ensures RejectedAsWritten(bits)
  {
    if bits[1] in Keys {
      assert bits[1] in kwargs;
      var j :| KeyAt(bits, j) && j >= 3 && bits[j] == bits[1];
    }
  }

  /** ...and on a `RejectedAsWritten` tag the loop stops at no other place. */
  lemma RejectedStopsAtFirst(bits: seq<string>)
    requires RejectedAsWritten(bits)
    ensures |PopPairs(bits, Keys, map[]).0| == 1 && !PopPairs(bits, Keys, map[]).1
  {
    assert Scanned(bits, |bits|, Keys, map[]);
    assert bits == bits[..|bits|];
    PopPairsScan(bits, bits, Keys, map[]);
    var out := PopPairs(bits, Keys, map[]);
    if out.1 {
      assert false;
    } else if |out.0| > 1 {
      assert false;
    }
  }

  /** As written, the tag function raises exactly on `RejectedAsWritten` tags:
      only a loop that stops at the very first pair survives the item check. */
  lemma AsWrittenRejects(bits: seq<string>)
    requires |bits| >= 1
    ensures ParseAsWritten(bits).Err? <==> RejectedAsWritten(bits)
  {
    AsWrittenErrWhenStoppedAtFirst(bits);
    if RejectedAsWritten(bits) {
      RejectedStopsAtFirst(bits);
    }
    if ParseAsWritten(bits).Err? {
      assert Scanned(bits, |bits|, Keys, map[]);
      assert bits == bits[..|bits|];
      PopPairsScan(bits, bits, Keys, map[]);
      StoppedAtFirstIsRejected(bits, PopPairs(bits, Keys, map[]).2);
    }
  }

  /** ...but also a tag that repeats `for`: `{% nav "x" for a for b %}` is
      accepted, with the last `for` in effect. */
  lemma AsWrittenAcceptsRepeatedFor()
    ensures !WellFormed(["nav", "\"x\"", "for", "a", "for", "b"])
    ensures ParseAsWritten(["nav", "\"x\"", "for", "a", "for", "b"]) == Ok(NavNode(Some("\"x\""), "b", None))
  {
    var bits := ["nav", "\"x\"", "for", "a", "for", "b"];
    assert KeyAt(bits, 2) && KeyAt(bits, 4);
    assert bits[..4] == ["nav", "\"x\"", "for", "a"];
    assert bits[..4][..2] == ["nav", "\"x\""];
  }

  /** The as-written item check can never fail: no stored name is `text`. */
  lemma TextNeverStoredUnderText(kwargs: map<string, string>)
    ensures "text" !in NodeKwargNames(kwargs)
  {
    var n := "text";
    assert n[..4][0] == 't' != "var_"[0];
  }

  /** As written, a tag with an item is never rejected, whatever follows it. */
  lemma AsWrittenAcceptsAnyItem(bits: seq<string>)
    requires |bits| >= 2 && |bits| % 2 == 0
    ensures ParseAsWritten(bits).Ok?
    ensures ParseAsWritten(bits).value.item == Some(bits[1])
  {
    var out := PopPairs(bits, Keys, map[]);
    assert |out.0| > 1;
    TextNeverStoredUnderText(out.2);
  }

  /** ...so `{% nav "x" text "y" %}` is accepted with both an item and a text,
      against the rule that a text argument takes no item. */
  lemma AsWrittenAcceptsItemWithText()
    ensures !WellFormed(["nav", "\"x\"", "text", "\"y\""])
    ensures ParseAsWritten(["nav", "\"x\"", "text", "\"y\""]) == Ok(NavNode(Some("\"x\""), "nav", Some("\"y\"")))
  {
    var bits := ["nav", "\"x\"", "text", "\"y\""];
    assert KeyAt(bits, 2);
    assert bits[..2] == ["nav", "\"x\""];
    TextNeverStoredUnderText(map["text" := "\"y\""]);
  }

  /** ...and a tag without an item: in `{% nav for a bogus x %}` the loop stops
      at `bogus`, and what is left is taken for an item, `for`. */
  lemma AsWrittenAcceptsItemless()
    ensures !WellFormed(["nav", "for", "a", "bogus", "x"])
    ensures ParseAsWritten(["nav", "for", "a", "bogus", "x"]) == Ok(NavNode(Some("for"), "nav", None))
  {
    var bits := ["nav", "for", "a", "bogus", "x"];
    assert KeyAt(bits, 3);
    assert bits[..3] == ["nav", "for", "a"];
    TextNeverStoredUnderText(map[]);
  }

  /** As written, `{% nav 'test' unexpected %}` is rejected, as the
      repository's tests expect. */
  lemma AsWrittenRejectsUnexpected()
    ensures ParseAsWritten(["nav", "'test'", "unexpected"]) == Err(SyntaxError("Unexpected format for nav tag"))
  {
    var bits := ["nav", "'test'", "unexpected"];
    assert bits[..1] == ["nav"];
    assert "'test'" !in Keys;
    assert PopPairs(bits, Keys, map[]) == (["nav"], false, map[]);
    assert FormatMessage(bits) == "Unexpected format for nav tag";
  }

  /** ...and a tag with an unknown key in front of the last pair:
      `{% nav "x" y bogus z %}` is accepted and the extra tokens are ignored. */
  lemma AsWrittenIgnoresUnknownKey()
    ensures !WellFormed(["nav", "\"x\"", "y", "bogus", "z"])
    ensures ParseAsWritten(["nav", "\"x\"", "y", "bogus", "z"]) == Ok(NavNode(Some("\"x\""), "nav", None))
  {
    var bits := ["nav", "\"x\"", "y", "bogus", "z"];
    assert KeyAt(bits, 3);
    assert bits[..3] == ["nav", "\"x\"", "y"];
  }
}
