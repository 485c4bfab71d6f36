/** Nested dictionaries as objects, changed in place along a key path. */
module NestedDicts {
  import opened Options
  import opened NestedConfig

  datatype Entry = Scalar(text: string) | Sub(dict: Dict)

  class Dict {
    var entries: map<string, Entry>

    constructor ()
      ensures entries == map[]
    {
      entries := map[];
    }
  }

  /** Which objects a nested dictionary is made of. */
  datatype Shape = Text(text: string) | Holder(dict: Dict, kids: map<string, Shape>)

  function EntryOf(s: Shape): Entry {
    match s case Text(text) => Scalar(text) case Holder(dict, _) => Sub(dict)
  }

  ghost function Feet(s: Shape): set<Dict> {
    match s
    case Text(_) => {}
    case Holder(dict, kids) => {dict} + set k, d | k in kids && d in Feet(kids[k]) :: d
  }

  /** No object stands in two places. */
  ghost predicate Tidy(s: Shape) {
    s.Holder? ==>
      && (forall k :: k in s.kids ==> s.dict !in Feet(s.kids[k]) && Tidy(s.kids[k]))
      && (forall j, k :: j in s.kids && k in s.kids && j != k ==> Feet(s.kids[j]) !! Feet(s.kids[k]))
  }

  /** The objects hold what the shape says. */
  ghost predicate Holds(s: Shape)
    reads Feet(s)
  {
    s.Holder? ==>
      && s.dict.entries.Keys == s.kids.Keys
      && (forall k :: k in s.kids ==> s.dict.entries[k] == EntryOf(s.kids[k]) && Holds(s.kids[k]))
  }

  /** The nested dictionary as a value. */
  ghost function Value(s: Shape): Tree {
    match s
    case Text(text) => Leaf(text)
    case Holder(_, kids) => Node(map k | k in kids :: Value(kids[k]))
  }

  ghost function Content(s: Shape): Entries
    requires s.Holder?
  {
    Value(s).entries
  }

  // ---------------------------------------------------------------- places in a shape

  predicate Reaches(s: Shape, path: seq<string>)
    decreases |path|
  {
    s.Holder? && (path == [] || (path[0] in s.kids && Reaches(s.kids[path[0]], path[1..])))
  }

  function At(s: Shape, path: seq<string>): (place: Shape)
    requires Reaches(s, path)
    ensures place.Holder?
    decreases |path|
  {
    if path == [] then s else At(s.kids[path[0]], path[1..])
  }

  function Put(s: Shape, path: seq<string>, n: Shape): Shape
    requires Reaches(s, path)
    decreases |path|
  {
    if path == [] then n else Holder(s.dict, s.kids[path[0] := Put(s.kids[path[0]], path[1..], n)])
  }

  lemma {:induction false} AtFacts(s: Shape, path: seq<string>)
    requires Reaches(s, path)
    ensures Feet(At(s, path)) <= Feet(s) && At(s, path).dict in Feet(s)
    ensures Tidy(s) ==> Tidy(At(s, path))
    decreases |path|
  {
    if path != [] {
      AtFacts(s.kids[path[0]], path[1..]);
    }
  }

  lemma {:induction false} PutFeet(s: Shape, path: seq<string>, n: Shape)
    requires Reaches(s, path)
    ensures Feet(Put(s, path, n)) <= Feet(s) + Feet(n)
    decreases |path|
  {
    if path != [] {
      PutFeet(s.kids[path[0]], path[1..], n);
    }
  }

  lemma {:induction false} PutTidy(s: Shape, path: seq<string>, n: Shape)
    requires Reaches(s, path) && Tidy(s) && Tidy(n) && Feet(n) * Feet(s) <= Feet(At(s, path))
    ensures Tidy(Put(s, path, n))
    decreases |path|
  {
    if path != [] {
      var key := path[0];
      var kid := s.kids[key];
      AtFacts(kid, path[1..]);
      PutTidy(kid, path[1..], n);
      PutFeet(kid, path[1..], n);
      assert s.dict !in Feet(kid) && s.dict in Feet(s);
      forall k | k in s.kids && k != key ensures Feet(s.kids[k]) !! Feet(Put(kid, path[1..], n)) {
        assert Feet(s.kids[k]) <= Feet(s) && Feet(s.kids[k]) !! Feet(kid);
      }
    }
  }

  /** The objects hold what the shape says, those from the place down left aside. */
  ghost predicate HoldsAround(s: Shape, path: seq<string>)
    requires Reaches(s, path) && Tidy(s)
    reads Feet(s) - Feet(At(s, path))
    decreases |path|
  {
    path != [] ==>
      var kid := s.kids[path[0]];
      AtFacts(kid, path[1..]);
      && s.dict.entries.Keys == s.kids.Keys
      && (forall k :: k in s.kids ==> s.dict.entries[k] == EntryOf(s.kids[k]))
      && (forall k :: k in s.kids && k != path[0] ==> Holds(s.kids[k]))
      && HoldsAround(kid, path[1..])
  }

  lemma {:induction false} HoldsInParts(s: Shape, path: seq<string>)
    requires Reaches(s, path) && Tidy(s) && Holds(s)
    ensures HoldsAround(s, path) && Holds(At(s, path))
    decreases |path|
  {
    if path != [] {
      HoldsInParts(s.kids[path[0]], path[1..]);
    }
  }

  /** Putting something at a place keeps what holds around it. */
  lemma {:induction false} PutHolds(s: Shape, path: seq<string>, n: Shape)
    requires Reaches(s, path) && Tidy(s) && HoldsAround(s, path) && Holds(n)
    requires n.Holder? && n.dict == At(s, path).dict
    ensures Holds(Put(s, path, n))
    decreases |path|
  {
    if path != [] {
      PutHolds(s.kids[path[0]], path[1..], n);
    }
  }

  // ---------------------------------------------------------------- values

  /** Setting below a place sets below it in the whole. */
  lemma {:induction false} PutSet(s: Shape, path: seq<string>, n: Shape, keys: seq<string>, value: Tree)
    requires Reaches(s, path) && n.Holder? && keys != []
    requires Content(n) == SetPath(Content(At(s, path)), keys, value)
    ensures Put(s, path, n).Holder? && Content(Put(s, path, n)) == SetPath(Content(s), path + keys, value)
    decreases |path|
  {
    if path == [] {
      assert path + keys == keys;
    } else {
      var kid := s.kids[path[0]];
      PutSet(kid, path[1..], n, keys, value);
      assert (path + keys)[1..] == path[1..] + keys;
      PutContent(s, path, n);
    }
  }

  lemma {:induction false} PutContent(s: Shape, path: seq<string>, n: Shape)
    requires Reaches(s, path) && path != []
    ensures Content(Put(s, path, n)) == Content(s)[path[0] := Value(Put(s.kids[path[0]], path[1..], n))]
  {
  }

  /** A delete that finds its entry below a place finds it in the whole. */
  lemma {:induction false} PutDelete(s: Shape, path: seq<string>, n: Shape, key: string)
    requires Reaches(s, path) && n.Holder?
    requires Content(n) == Content(At(s, path)) - {key}
    ensures Put(s, path, n).Holder?
    ensures DeletePath(Content(s), path + [key]) == (key in Content(At(s, path)), Content(Put(s, path, n)))
    decreases |path|
  {
    if path == [] {
      assert path + [key] == [key];
    } else {
      var kid := s.kids[path[0]];
      PutDelete(kid, path[1..], n, key);
      assert (path + [key])[1..] == path[1..] + [key];
      PutContent(s, path, n);
    }
  }

  lemma {:induction false} StuckDelete(s: Shape, path: seq<string>, keys: seq<string>)
    requires Reaches(s, path) && |keys| > 1
    requires keys[0] !in At(s, path).kids || At(s, path).kids[keys[0]].Text?
    ensures DeletePath(Content(s), path + keys) == (false, Content(s))
    decreases |path|
  {
    if path == [] {
      assert path + keys == keys;
      assert keys[0] in Content(s) ==> Content(s)[keys[0]] == Value(s.kids[keys[0]]);
    } else {
      var kid := s.kids[path[0]];
      StuckDelete(kid, path[1..], keys);
      assert (path + keys)[1..] == path[1..] + keys;
      assert Content(s)[path[0] := Node(Content(kid))] == Content(s);
    }
  }

  lemma {:induction false} ReachesFurther(s: Shape, path: seq<string>, key: string)
    requires Reaches(s, path)
    requires key in At(s, path).kids && At(s, path).kids[key].Holder?
    ensures Reaches(s, path + [key]) && At(s, path + [key]) == At(s, path).kids[key]
    decreases |path|
  {
    if path == [] {
      assert path + [key] == [key];
      assert [key][1..] == [];
    } else {
      ReachesFurther(s.kids[path[0]], path[1..], key);
      assert (path + [key])[1..] == path[1..] + [key];
    }
  }

  // ---------------------------------------------------------------- the program

  /** One dictionary, made of these objects. */
  ghost predicate Well(s: Shape)
    reads Feet(s)
  {
    s.Holder? && Tidy(s) && Holds(s)
  }

  lemma {:induction false} AtPut(s: Shape, path: seq<string>, n: Shape)
    requires Reaches(s, path) && n.Holder?
    ensures Reaches(Put(s, path, n), path) && At(Put(s, path, n), path) == n && Put(s, path, n).Holder?
    ensures n.dict == At(s, path).dict ==> Put(s, path, n).dict == s.dict
    decreases |path|
  {
    if path != [] {
      AtPut(s.kids[path[0]], path[1..], n);
    }
  }

  lemma {:induction false} LookupAt(s: Shape, path: seq<string>, key: string)
    requires Reaches(s, path)
    ensures Lookup(Content(s), path + [key])
      == if key in At(s, path).kids then Some(Value(At(s, path).kids[key])) else None
    decreases |path|
  {
    if path == [] {
      assert path + [key] == [key];
    } else {
      LookupAt(s.kids[path[0]], path[1..], key);
      assert (path + [key])[1..] == path[1..] + [key];
    }
  }

  lemma {:induction false} KidsTidy(n: Shape, key: string, e: Shape)
    requires n.Holder? && Tidy(n) && Tidy(e) && Feet(e) !! Feet(n)
    ensures Tidy(Holder(n.dict, n.kids[key := e]))
    ensures Feet(Holder(n.dict, n.kids[key := e])) <= Feet(n) + Feet(e)
  {
    forall k | k in n.kids ensures Feet(n.kids[k]) <= Feet(n) {
    }
  }

  lemma {:induction false} KidsContent(n: Shape, key: string, e: Shape)
    requires n.Holder?
    ensures Content(Holder(n.dict, n.kids[key := e])) == SetPath(Content(n), [key], Value(e))
  {
  }

  predicate IsNode(t: Option<Tree>) { t.Some? && t.value.Node? }

  /** Making an empty dictionary on the way makes no difference to the set that follows. */
  lemma {:induction false} MakingOnTheWay(m: Entries, path: seq<string>, key: string, rest: seq<string>, value: Tree)
    requires rest != [] && !IsNode(Lookup(m, path + [key]))
    ensures SetPath(SetPath(m, path + [key], Node(map[])), path + [key] + rest, value)
      == SetPath(m, path + [key] + rest, value)
    decreases |path|
  {
    var all := path + [key] + rest;
    if path == [] {
      assert path + [key] == [key];
      assert all[1..] == rest;
    } else {
      assert (path + [key])[1..] == path[1..] + [key];
      assert all[1..] == path[1..] + [key] + rest;
      LookupNothing(path[1..] + [key]);
      MakingOnTheWay(Child(m, path[0]), path[1..], key, rest, value);
    }
  }

  /** What a place now holds makes a well-formed whole again. */
  lemma {:induction false} PutWell(s: Shape, path: seq<string>, n: Shape)
    requires s.Holder? && Tidy(s) && Reaches(s, path) && HoldsAround(s, path)
    requires n.Holder? && n.dict == At(s, path).dict && Tidy(n) && Holds(n)
    requires Feet(n) * Feet(s) <= Feet(At(s, path))
    ensures Well(Put(s, path, n)) && Put(s, path, n).dict == s.dict && Feet(Put(s, path, n)) <= Feet(s) + Feet(n)
  {
    PutTidy(s, path, n);
    PutFeet(s, path, n);
    AtPut(s, path, n);
    PutHolds(s, path, n);
  }

  lemma {:induction false} AssignFacts(s: Shape, path: seq<string>, key: string, e: Shape)
    requires Reaches(s, path) && Tidy(s) && Tidy(e) && Feet(e) !! Feet(s)
    ensures var n := At(s, path);
      var n' := Holder(n.dict, n.kids[key := e]);
      && Tidy(n') && Feet(n') <= Feet(n) + Feet(e) && Feet(n) <= Feet(s)
      && (forall k :: k in n.kids ==> n.dict !in Feet(n.kids[k]) && Feet(n.kids[k]) <= Feet(n))
      && Put(s, path, n').Holder? && Content(Put(s, path, n')) == SetPath(Content(s), path + [key], Value(e))
  {
    var n := At(s, path);
    AtFacts(s, path);
    KidsTidy(n, key, e);
    KidsContent(n, key, e);
    PutSet(s, path, Holder(n.dict, n.kids[key := e]), [key], Value(e));
  }

  lemma {:induction false} KidsHold(n: Shape, key: string, e: Shape, was: map<string, Entry>)
    requires n.Holder? && Holds(e) && n.dict.entries == was[key := EntryOf(e)] && was.Keys == n.kids.Keys
    requires forall k :: k in n.kids ==> was[k] == EntryOf(n.kids[k]) && Holds(n.kids[k])
    ensures Holds(Holder(n.dict, n.kids[key := e]))
  {
  }

  /** With the value under the key of the dictionary, the objects are those of the shape with it. */
  lemma {:induction false} AssignedWell(s: Shape, path: seq<string>, key: string, e: Shape, was: map<string, Entry>)
    requires s.Holder? && Tidy(s) && Reaches(s, path) && HoldsAround(s, path)
    requires Tidy(e) && Holds(e) && Feet(e) !! Feet(s)
    requires var n := At(s, path);
      && n.dict.entries == was[key := EntryOf(e)] && was.Keys == n.kids.Keys
      && forall k :: k in n.kids ==> was[k] == EntryOf(n.kids[k]) && Holds(n.kids[k])
    ensures var after := Put(s, path, Holder(At(s, path).dict, At(s, path).kids[key := e]));
      Well(after) && after.dict == s.dict && Feet(after) <= Feet(s) + Feet(e)
  {
    var n := At(s, path);
    AssignFacts(s, path, key, e);
    KidsHold(n, key, e, was);
    PutWell(s, path, Holder(n.dict, n.kids[key := e]));
  }

  /** `cur[key] = value` */
  method Assign(cur: Dict, key: string, value: Entry, ghost s: Shape, ghost path: seq<string>, ghost e: Shape)
    returns (ghost after: Shape)
    requires Well(s) && Reaches(s, path) && At(s, path).dict == cur
    requires EntryOf(e) == value && Tidy(e) && Holds(e) && Feet(e) !! Feet(s)
    modifies cur
    ensures cur.entries == old(cur.entries)[key := value]
    ensures after == Put(s, path, Holder(cur, At(s, path).kids[key := e])) && Well(after) && after.dict == s.dict
    ensures Feet(after) <= Feet(s) + Feet(e)
    ensures Content(after) == SetPath(Content(s), path + [key], Value(e))
  {
    HoldsInParts(s, path);
    AssignFacts(s, path, key, e);
    ghost var was := cur.entries;
    cur.entries := cur.entries[key := value];
    after := Put(s, path, Holder(cur, At(s, path).kids[key := e]));
    AssignedWell(s, path, key, e, was);
  }

  /** Steps into the dictionary under the key, making it in place of anything else. That
      makes no difference to a set that goes on from there. */
  method Descend(cur: Dict, key: string, ghost s: Shape, ghost path: seq<string>, ghost rest: seq<string>,
                 ghost value: Tree)
    returns (next: Dict, ghost after: Shape)
    requires Well(s) && Reaches(s, path) && At(s, path).dict == cur && rest != []
    modifies cur
    ensures Well(after) && after.dict == s.dict
    ensures forall x :: x in Feet(after) ==> x in Feet(s) || fresh(x)
    ensures Reaches(after, path + [key]) && At(after, path + [key]).dict == next
    ensures SetPath(Content(after), path + [key] + rest, value) == SetPath(Content(s), path + [key] + rest, value)
  {
    after := s;
    HoldsInParts(s, path);
    if key !in cur.entries || cur.entries[key].Scalar? {
      after := MakeUnder(cur, key, s, path);
      LookupAt(s, path, key);
      MakingOnTheWay(Content(s), path, key, rest, value);
    }
    HoldsInParts(after, path);
    ReachesFurther(after, path, key);
    next := cur.entries[key].dict;
  }

  /** `cur[key] = {}` */
  method MakeUnder(cur: Dict, key: string, ghost s: Shape, ghost path: seq<string>) returns (ghost after: Shape)
    requires Well(s) && Reaches(s, path) && At(s, path).dict == cur
    modifies cur
    ensures Well(after) && after.dict == s.dict
    ensures forall x :: x in Feet(after) ==> x in Feet(s) || fresh(x)
    ensures Reaches(after, path) && At(after, path).dict == cur
    ensures key in At(after, path).kids && At(after, path).kids[key].Holder?
    ensures Content(after) == SetPath(Content(s), path + [key], Node(map[]))
  {
    assert allocated(Feet(s));
    var made := new Dict();
    assert made !in Feet(s);
    after := Assign(cur, key, Sub(made), s, path, Holder(made, map[]));
    AtPut(s, path, Holder(cur, At(s, path).kids[key := Holder(made, map[])]));
    assert Value(Holder(made, map[])) == Node(map[]);
  }

  lemma {:induction false} SplitKeys(keys: seq<string>, i: nat)
    requires i < |keys|
    ensures keys[..i + 1] == keys[..i] + [keys[i]] && keys == keys[..i] + [keys[i]] + keys[i + 1..]
    ensures i == |keys| - 1 ==> keys == keys[..i] + [keys[i]]
  {
  }

  /** Walks to the parent of the last key, making dictionaries on the way. */
  method Walk(d: Dict, keys: seq<string>, ghost shape: Shape, ghost given: Shape)
    returns (cur: Dict, ghost after: Shape)
    requires keys != [] && Well(shape) && shape.dict == d
    requires Tidy(given) && Holds(given) && Feet(given) !! Feet(shape)
    modifies Feet(shape)
    ensures Well(after) && after.dict == d && Holds(given) && Feet(given) !! Feet(after)
    ensures forall x :: x in Feet(after) ==> x in Feet(shape) || fresh(x)
    ensures Reaches(after, keys[..|keys| - 1]) && At(after, keys[..|keys| - 1]).dict == cur
    ensures SetPath(Content(after), keys, Value(given)) == SetPath(Content(shape), keys, Value(given))
  {
    after := shape;
    ghost var theirs := Feet(given);
    assert allocated(theirs);
    cur := d;
    var i := 0;
    while i < |keys| - 1
      invariant i <= |keys| - 1
      invariant Well(after) && after.dict == d && Holds(given) && theirs !! Feet(after)
      invariant forall x :: x in Feet(after) ==> x in Feet(shape) || fresh(x)
      invariant Reaches(after, keys[..i]) && At(after, keys[..i]).dict == cur
      invariant SetPath(Content(after), keys, Value(given)) == SetPath(Content(shape), keys, Value(given))
    {
      AtFacts(after, keys[..i]);
      SplitKeys(keys, i);
      cur, after := Descend(cur, keys[i], after, keys[..i], keys[i + 1..], Value(given));
      i := i + 1;
    }
  }

  lemma {:induction false} SetLast(m: Entries, keys: seq<string>, value: Tree, was: Entries)
    requires keys != [] && SetPath(m, keys, value) == SetPath(was, keys, value)
    ensures SetPath(m, keys[..|keys| - 1] + [keys[|keys| - 1]], value) == SetPath(was, keys, value)
  {
    SplitKeys(keys, |keys| - 1);
  }

  /** Walks to the parent of the last key and sets the value there. */
  method DeepSet(d: Dict, keys: seq<string>, value: Entry, ghost shape: Shape, ghost given: Shape)
    returns (ghost after: Shape)
    requires keys != [] && Well(shape) && shape.dict == d
    requires EntryOf(given) == value && Tidy(given) && Holds(given) && Feet(given) !! Feet(shape)
    modifies Feet(shape)
    ensures Well(after) && after.dict == d
    ensures Content(after) == SetPath(Content(shape), keys, Value(given))
  {
    var cur;
    cur, after := Walk(d, keys, shape, given);
    var last := |keys| - 1;
    AtFacts(after, keys[..last]);
    SetLast(Content(after), keys, Value(given), Content(shape));
    after := Assign(cur, keys[last], value, after, keys[..last], given);
  }

  lemma {:induction false} KidsWithout(n: Shape, key: string)
    requires n.Holder? && Tidy(n)
    ensures Tidy(Holder(n.dict, n.kids - {key})) && Feet(Holder(n.dict, n.kids - {key})) <= Feet(n)
    ensures Content(Holder(n.dict, n.kids - {key})) == Content(n) - {key}
  {
  }

  lemma {:induction false} PlaceIsApart(s: Shape, path: seq<string>)
    requires Reaches(s, path) && Tidy(s)
    ensures var n := At(s, path);
      Feet(n) <= Feet(s) && forall k :: k in n.kids ==> n.dict !in Feet(n.kids[k]) && Feet(n.kids[k]) <= Feet(n)
  {
    AtFacts(s, path);
  }

  lemma {:induction false} RemoveContent(s: Shape, path: seq<string>, key: string)
    requires Reaches(s, path) && Tidy(s) && key in At(s, path).kids
    ensures var after := Put(s, path, Holder(At(s, path).dict, At(s, path).kids - {key}));
      after.Holder? && DeletePath(Content(s), path + [key]) == (true, Content(after))
  {
    var n := At(s, path);
    AtFacts(s, path);
    KidsWithout(n, key);
    PutDelete(s, path, Holder(n.dict, n.kids - {key}), key);
  }

  lemma {:induction false} KidsHoldWithout(n: Shape, key: string, was: map<string, Entry>)
    requires n.Holder? && n.dict.entries == was - {key} && was.Keys == n.kids.Keys
    requires forall k :: k in n.kids ==> was[k] == EntryOf(n.kids[k]) && Holds(n.kids[k])
    ensures Holds(Holder(n.dict, n.kids - {key}))
  {
  }

  /** With the key gone from the dictionary, the objects are those of the shape without it. */
  lemma {:induction false} RemovedWell(s: Shape, path: seq<string>, key: string, was: map<string, Entry>)
    requires s.Holder? && Tidy(s) && Reaches(s, path) && HoldsAround(s, path) && key in At(s, path).kids
    requires var n := At(s, path);
      && n.dict.entries == was - {key} && was.Keys == n.kids.Keys
      && forall k :: k in n.kids ==> was[k] == EntryOf(n.kids[k]) && Holds(n.kids[k])
    ensures var after := Put(s, path, Holder(At(s, path).dict, At(s, path).kids - {key}));
      Well(after) && after.dict == s.dict && Feet(after) <= Feet(s)
  {
    var n := At(s, path);
    AtFacts(s, path);
    KidsWithout(n, key);
    KidsHoldWithout(n, key, was);
    PutWell(s, path, Holder(n.dict, n.kids - {key}));
  }

  /** `cur.pop(key)` */
  method Remove(cur: Dict, key: string, ghost s: Shape, ghost path: seq<string>) returns (ghost after: Shape)
    requires Well(s) && Reaches(s, path) && At(s, path).dict == cur && key in cur.entries
    modifies cur
    ensures cur.entries == old(cur.entries) - {key}
    ensures Well(after) && after.dict == s.dict && Feet(after) <= Feet(s)
    ensures DeletePath(Content(s), path + [key]) == (true, Content(after))
  {
    HoldsInParts(s, path);
    PlaceIsApart(s, path);
    ghost var was := cur.entries;
    cur.entries := cur.entries - {key};
    RemovedWell(s, path, key, was);
    RemoveContent(s, path, key);
    after := Put(s, path, Holder(cur, At(s, path).kids - {key}));
  }

  /** Walks to the parent of the last key and removes it there; a missing dictionary on the
      way ends the walk with everything as it was. */
  method DeepDelete(d: Dict, keys: seq<string>, ghost shape: Shape) returns (found: bool, ghost after: Shape)
    requires keys != [] && Well(shape) && shape.dict == d
    modifies Feet(shape)
    ensures Well(after) && after.dict == d
    ensures (found, Content(after)) == DeletePath(Content(shape), keys)
    ensures !found ==> after == shape
  {
    var cur := d;
    for i := 0 to |keys| - 1
      invariant Well(shape) && Reaches(shape, keys[..i]) && At(shape, keys[..i]).dict == cur
    {
      HoldsInParts(shape, keys[..i]);
      assert keys == keys[..i] + keys[i..];
      if keys[i] !in cur.entries || cur.entries[keys[i]].Scalar? {
        StuckDelete(shape, keys[..i], keys[i..]);
        return false, shape;
      }
      ReachesFurther(shape, keys[..i], keys[i]);
      SplitKeys(keys, i);
      cur := cur.entries[keys[i]].dict;
    }
    var last := |keys| - 1;
    SplitKeys(keys, last);
    AtFacts(shape, keys[..last]);
    HoldsInParts(shape, keys[..last]);
    found := keys[last] in cur.entries;
    if found {
      after := Remove(cur, keys[last], shape, keys[..last]);
    } else {
      LookupAt(shape, keys[..last], keys[last]);
      DeleteFindsExactly(Content(shape), keys);
      after := shape;
    }
  }
}
