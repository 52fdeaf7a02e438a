/**
 * Python dict/JSON values as the settings loader and the transaction builder
 * see them, with the deep merge both of them implement and lookup by key path.
 * Dicts are maps: the merges below never depend on key order.
 */
module Values {
  import opened Wrappers

  datatype Value =
    | VStr(s: string)
    | VInt(i: int)
    | VBool(b: bool)
    | VNone
    | VList(items: seq<Value>)
    | VDict(d: map<string, Value>)

  /** Python's `bool(v)`: empty strings and containers, zero, False and None are falsy. */
  function Truthy(v: Value): bool {
    match v
    case VStr(s) => |s| > 0
    case VInt(i) => i != 0
    case VBool(b) => b
    case VNone => false
    case VList(items) => |items| > 0
    case VDict(d) => |d| > 0
  }

  /**
   * Deep merge of `up` into `base`: when both are dicts every key of `up` is
   * merged into the value `base` has for it; otherwise `up` replaces `base`.
   */
  function Merge(base: Value, up: Value): (r: Value)
    ensures base.VDict? && up.VDict? ==> r.VDict? && r.d.Keys == base.d.Keys + up.d.Keys
    ensures !up.VDict? ==> r == up
    decreases up
  {
    if base.VDict? && up.VDict? then
      VDict(map k | k in base.d.Keys + up.d.Keys ::
              if k in up.d then (if k in base.d then Merge(base.d[k], up.d[k]) else up.d[k]) else base.d[k])
    else up
  }

  /** The value at `path`: each step indexes a dict; `None` when a key is missing or a step is not a dict. */
  function Lookup(v: Value, path: seq<string>): Option<Value> {
    if |path| == 0 then Some(v)
    else if v.VDict? && path[0] in v.d then Lookup(v.d[path[0]], path[1..])
    else None
  }

  /** `up` says nothing about `path`: following it through dicts, a key is missing before the end. */
  predicate Untouched(up: Value, path: seq<string>) {
    |path| > 0 && up.VDict? && (path[0] !in up.d || Untouched(up.d[path[0]], path[1..]))
  }

  /** `base` folded with each present layer in turn; an absent layer (`None` or `{}`) changes nothing. */
  function MergeAll(base: Value, layers: seq<Option<map<string, Value>>>): (r: Value)
    ensures base.VDict? ==> r.VDict? && base.d.Keys <= r.d.Keys
  {
    if |layers| == 0 then base
    else
      var prev := MergeAll(base, layers[..|layers| - 1]);
      match layers[|layers| - 1]
      case None => prev
      case Some(up) => Merge(prev, VDict(up))
  }

  /** A layer that leaves `path` alone. */
  predicate Silent(layer: Option<map<string, Value>>, path: seq<string>) {
    layer.None? || Untouched(VDict(layer.value), path)
  }

  // ---------------------------------------------------------------------------
  // Properties of the merge

  lemma {:induction false} UntouchedLookup(up: Value, path: seq<string>)
    requires Untouched(up, path)
    ensures Lookup(up, path) == None
    decreases |path|
  {
    if path[0] in up.d {
      UntouchedLookup(up.d[path[0]], path[1..]);
    }
  }

  /** A leaf that `up` holds at `path` is what the merge holds there, whatever `base` was. */
  lemma {:induction false} UpdateWins(base: Value, up: Value, path: seq<string>, x: Value)
    requires Lookup(up, path) == Some(x) && !x.VDict?
    ensures Lookup(Merge(base, up), path) == Some(x)
    decreases |path|
  {
    if |path| > 0 && base.VDict? {
      var k := path[0];
      if k in base.d {
        UpdateWins(base.d[k], up.d[k], path[1..], x);
      }
    }
  }

  /** Where the dict `up` says nothing, the merge holds what `base` held. */
  lemma {:induction false} KeptWhenUntouched(base: Value, up: Value, path: seq<string>)
    requires Untouched(up, path)
    ensures Lookup(Merge(base, up), path) == Lookup(base, path)
    decreases |path|
  {
    var k := path[0];
    if !base.VDict? {
      UntouchedLookup(up, path);
    } else if k in up.d {
      if k in base.d {
        KeptWhenUntouched(base.d[k], up.d[k], path[1..]);
      } else {
        UntouchedLookup(up.d[k], path[1..]);
      }
    }
  }

  /** Merging a value with itself changes nothing. */
  lemma {:induction false} MergeSelf(x: Value)
    ensures Merge(x, x) == x
    decreases x
  {
    if x.VDict? {
      forall k | k in x.d ensures Merge(x.d[k], x.d[k]) == x.d[k] {
        MergeSelf(x.d[k]);
      }
      assert Merge(x, x).d == x.d;
    }
  }

  /** Applying the same update twice gives the same result as applying it once. */
  lemma {:induction false} MergeIdempotent(base: Value, up: Value)
    ensures Merge(Merge(base, up), up) == Merge(base, up)
    decreases up
  {
    var m := Merge(base, up);
    if base.VDict? && up.VDict? {
      forall k | k in up.d ensures Merge(m.d[k], up.d[k]) == m.d[k] {
        if k in base.d {
          MergeIdempotent(base.d[k], up.d[k]);
        } else {
          MergeSelf(up.d[k]);
        }
      }
      assert Merge(m, up).d == m.d;
    } else {
      MergeSelf(up);
    }
  }

  /** An empty update leaves a dict as it was. */
  lemma MergeEmpty(base: map<string, Value>)
    ensures Merge(VDict(base), VDict(map[])) == VDict(base)
  {
    assert Merge(VDict(base), VDict(map[])).d == base;
  }

  /** Of all the layers, the last one that holds a leaf at `path` decides it. */
  lemma {:induction false} LastLeafWins(base: Value, layers: seq<Option<map<string, Value>>>, i: nat, path: seq<string>, x: Value)
    requires i < |layers| && layers[i].Some?
    requires Lookup(VDict(layers[i].value), path) == Some(x) && !x.VDict?
    requires forall j :: i < j < |layers| ==> Silent(layers[j], path)
    ensures Lookup(MergeAll(base, layers), path) == Some(x)
  {
    var n := |layers| - 1;
    var prev := MergeAll(base, layers[..n]);
    if i == n {
      UpdateWins(prev, VDict(layers[n].value), path, x);
    } else {
      assert layers[..n][i] == layers[i];
      LastLeafWins(base, layers[..n], i, path, x);
      if layers[n].Some? {
        KeptWhenUntouched(prev, VDict(layers[n].value), path);
      }
    }
  }

  /** When no layer says anything about `path`, the base value stands. */
  lemma {:induction false} BaseKept(base: Value, layers: seq<Option<map<string, Value>>>, path: seq<string>)
    requires forall j :: 0 <= j < |layers| ==> Silent(layers[j], path)
    ensures Lookup(MergeAll(base, layers), path) == Lookup(base, path)
  {
    if |layers| > 0 {
      var n := |layers| - 1;
      BaseKept(base, layers[..n], path);
      if layers[n].Some? {
        KeptWhenUntouched(MergeAll(base, layers[..n]), VDict(layers[n].value), path);
      }
    }
  }
}
