/** Nested configuration dictionaries as values, and the laws of setting and deleting an entry
    by its key path. */
module NestedConfig {
  import opened Options

  datatype Tree = Leaf(scalar: string) | Node(entries: Entries)

  type Entries = map<string, Tree>

  /** The dictionary under a key, or a new one in place of anything else. */
  function Child(m: Entries, key: string): Entries {
    if key in m && m[key].Node? then m[key].entries else map[]
  }

  function SetPath(m: Entries, keys: seq<string>, value: Tree): Entries
    requires keys != []
    decreases |keys|
  {
    if |keys| == 1 then m[keys[0] := value]
    else m[keys[0] := Node(SetPath(Child(m, keys[0]), keys[1..], value))]
  }

  function DeletePath(m: Entries, keys: seq<string>): (bool, Entries)
    requires keys != []
    decreases |keys|
  {
    if |keys| == 1 then (keys[0] in m, m - {keys[0]})
    else if keys[0] in m && m[keys[0]].Node? then
      var (found, child) := DeletePath(m[keys[0]].entries, keys[1..]);
      (found, m[keys[0] := Node(child)])
    else (false, m)
  }

  function Lookup(m: Entries, keys: seq<string>): Option<Tree>
    requires keys != []
    decreases |keys|
  {
    if keys[0] !in m then None
    else if |keys| == 1 then Some(m[keys[0]])
    else if m[keys[0]].Node? then Lookup(m[keys[0]].entries, keys[1..])
    else None
  }

  /** Neither path runs through the other. */
  predicate Apart(a: seq<string>, b: seq<string>) { !(a <= b) && !(b <= a) }

  /** Every key of the path but the last leads to a dictionary. */
  predicate ParentExists(m: Entries, keys: seq<string>)
    requires keys != []
    decreases |keys|
  {
    |keys| == 1 || (keys[0] in m && m[keys[0]].Node? && ParentExists(m[keys[0]].entries, keys[1..]))
  }

  // ---------------------------------------------------------------- setting

  lemma {:induction false} LookupSet(m: Entries, keys: seq<string>, value: Tree)
    requires keys != []
    ensures Lookup(SetPath(m, keys, value), keys) == Some(value) && ParentExists(SetPath(m, keys, value), keys)
    decreases |keys|
  {
    if |keys| > 1 {
      LookupSet(Child(m, keys[0]), keys[1..], value);
    }
  }

  lemma {:induction false} LookupNothing(keys: seq<string>)
    requires keys != []
    ensures Lookup(map[], keys) == None
  {
  }

  /** Setting one entry leaves every path that is apart from it as it was. */
  lemma {:induction false} SetLeavesOthers(m: Entries, keys: seq<string>, value: Tree, other: seq<string>)
    requires keys != [] && other != [] && Apart(keys, other)
    ensures Lookup(SetPath(m, keys, value), other) == Lookup(m, other)
    decreases |keys|
  {
    if keys[0] == other[0] {
      SetLeavesOthers(Child(m, keys[0]), keys[1..], value, other[1..]);
      LookupNothing(other[1..]);
    }
  }

  /** A later set of the same entry overwrites. */
  lemma {:induction false} SetOverwrites(m: Entries, keys: seq<string>, first: Tree, second: Tree)
    requires keys != []
    ensures SetPath(SetPath(m, keys, first), keys, second) == SetPath(m, keys, second)
    decreases |keys|
  {
    if |keys| > 1 {
      SetOverwrites(Child(m, keys[0]), keys[1..], first, second);
    }
  }

  lemma {:induction false} SetSameHead(m: Entries, a: seq<string>, x: Tree, b: seq<string>, y: Tree)
    requires |a| > 1 && |b| > 1 && a[0] == b[0]
    ensures SetPath(SetPath(m, a, x), b, y) == m[a[0] := Node(SetPath(SetPath(Child(m, a[0]), a[1..], x), b[1..], y))]
  {
    var below := SetPath(Child(m, a[0]), a[1..], x);
    assert Child(m[a[0] := Node(below)], b[0]) == below;
  }

  /** What a set puts under the first key. */
  function Under(m: Entries, keys: seq<string>, value: Tree): Tree
    requires keys != []
  {
    if |keys| == 1 then value else Node(SetPath(Child(m, keys[0]), keys[1..], value))
  }

  lemma {:induction false} UpdatesCommute(m: Entries, j: string, u: Tree, k: string, v: Tree)
    requires j != k
    ensures m[j := u][k := v] == m[k := v][j := u]
  {
  }

  /** Sets of entries that are apart commute. */
  lemma {:induction false} SetsCommute(m: Entries, a: seq<string>, x: Tree, b: seq<string>, y: Tree)
    requires a != [] && b != [] && Apart(a, b)
    ensures SetPath(SetPath(m, a, x), b, y) == SetPath(SetPath(m, b, y), a, x)
    decreases |a|
  {
    if a[0] == b[0] {
      SetsCommute(Child(m, a[0]), a[1..], x, b[1..], y);
      SetSameHead(m, a, x, b, y);
      SetSameHead(m, b, y, a, x);
    } else {
      UpdatesCommute(m, a[0], Under(m, a, x), b[0], Under(m, b, y));
    }
  }

  /** Setting what is there already changes nothing, and only that. */
  lemma {:induction false} SetIsIdleExactly(m: Entries, keys: seq<string>, value: Tree)
    requires keys != []
    ensures SetPath(m, keys, value) == m <==> Lookup(m, keys) == Some(value)
    decreases |keys|
  {
    var key, set' := keys[0], SetPath(m, keys, value);
    if |keys| > 1 && key in m && m[key].Node? {
      SetIsIdleExactly(m[key].entries, keys[1..], value);
      assert set' == m <==> set'[key] == m[key];
    } else {
      assert key in set' && (key in m ==> (set' == m <==> set'[key] == m[key]));
    }
  }

  // ---------------------------------------------------------------- deleting

  /** Deletion reports whether the entry was there; when not, nothing changes. */
  lemma {:induction false} DeleteFindsExactly(m: Entries, keys: seq<string>)
    requires keys != []
    ensures DeletePath(m, keys).0 <==> Lookup(m, keys).Some?
    ensures !DeletePath(m, keys).0 ==> DeletePath(m, keys).1 == m
    decreases |keys|
  {
    if |keys| > 1 && keys[0] in m && m[keys[0]].Node? {
      DeleteFindsExactly(m[keys[0]].entries, keys[1..]);
    }
  }

  /** Deletion removes the entry and leaves every path that is apart from it as it was. */
  lemma {:induction false} DeleteRemovesOnly(m: Entries, keys: seq<string>, other: seq<string>)
    requires keys != [] && other != []
    ensures Lookup(DeletePath(m, keys).1, keys) == None
    ensures Apart(keys, other) ==> Lookup(DeletePath(m, keys).1, other) == Lookup(m, other)
    decreases |keys|
  {
    if |keys| > 1 && keys[0] in m && m[keys[0]].Node? {
      var rest := m[keys[0]].entries;
      if Apart(keys, other) && keys[0] == other[0] {
        DeleteRemovesOnly(rest, keys[1..], other[1..]);
      } else {
        DeleteRemovesOnly(rest, keys[1..], keys[1..]);
      }
    }
  }

  /** Deleting a set entry finds it and forgets the value. */
  lemma {:induction false} DeleteAfterSet(m: Entries, keys: seq<string>, value: Tree)
    requires keys != []
    ensures var (found, left) := DeletePath(SetPath(m, keys, value), keys);
      found && (ParentExists(m, keys) ==> left == DeletePath(m, keys).1)
    decreases |keys|
  {
    if |keys| > 1 {
      DeleteAfterSet(Child(m, keys[0]), keys[1..], value);
    } else {
      assert m[keys[0] := value] - {keys[0]} == m - {keys[0]};
    }
  }

  /** A set followed by a delete restores the dictionary exactly when the entry was absent
      from a dictionary that was there. */
  lemma {:induction false} SetDeleteRestoresExactly(m: Entries, keys: seq<string>, value: Tree)
    requires keys != []
    ensures DeletePath(SetPath(m, keys, value), keys).1 == m <==> ParentExists(m, keys) && Lookup(m, keys) == None
  {
    var left := DeletePath(SetPath(m, keys, value), keys).1;
    if left == m {
      LookupSet(m, keys, value);
      ParentStays(SetPath(m, keys, value), keys);
      DeleteRemovesOnly(SetPath(m, keys, value), keys, keys);
    } else if ParentExists(m, keys) && Lookup(m, keys) == None {
      DeleteAfterSet(m, keys, value);
      DeleteFindsExactly(m, keys);
    }
  }

  lemma {:induction false} ParentStays(m: Entries, keys: seq<string>)
    requires keys != [] && ParentExists(m, keys)
    ensures ParentExists(DeletePath(m, keys).1, keys)
    decreases |keys|
  {
    if |keys| > 1 {
      ParentStays(m[keys[0]].entries, keys[1..]);
    }
  }

  /** A delete followed by setting the value back restores the dictionary. */
  lemma {:induction false} DeleteSetRestores(m: Entries, keys: seq<string>)
    requires keys != [] && Lookup(m, keys).Some?
    ensures SetPath(DeletePath(m, keys).1, keys, Lookup(m, keys).value) == m
    decreases |keys|
  {
    if |keys| > 1 {
      DeleteSetRestores(m[keys[0]].entries, keys[1..]);
    }
  }
}
