/**
 Merging Helm values (`MergeMaps` in pkg/helm/utils.go) and the order in which `fsm install`
 applies its value files and `--set` values (cmd/cli/install.go).
 */
module MergeMaps {
  import opened Prelude

  /** A Helm value: a map of values, or anything else. */
  datatype Value = Leaf(text: string) | Node(m: map<string, Value>)

  const EMPTY := Node(map[])

  /** `b` laid over `a`. */
  function Over(a: Value, b: Value): Value
    decreases b
  {
    if a.Leaf? || b.Leaf? then b
    else Node(map k | k in a.m.Keys + b.m.Keys ::
      if k !in b.m then a.m[k] else if k !in a.m then b.m[k] else Over(a.m[k], b.m[k]))
  }

  /** `MergeMaps`; maps are visited in any order. */
  method MergeMaps(a: Value, b: Value) returns (out: Value)
    requires a.Node? && b.Node?
    ensures out.Node? && out == Over(a, b)
    decreases b
  {
    var m := a.m;
    var left := b.m.Keys;
    while left != {}
      invariant left <= b.m.Keys && m.Keys == a.m.Keys + (b.m.Keys - left)
      invariant forall k :: k in m ==> m[k] == if k in left || k !in b.m then a.m[k] else Over(a, b).m[k]
      decreases left
    {
      var k :| k in left;
      left := left - {k};
      var v := b.m[k];
      if v.Node? && k in m && m[k].Node? {
        assert v == b.m[k];
        var merged := MergeMaps(m[k], v);
        m := m[k := merged];
      } else {
        m := m[k := v];
      }
    }
    out := Node(m);
    assert m == Over(a, b).m;
  }

  // ---------------------------------------------------------------------
  // What a value says about a path

  datatype Seen = Nothing | Branch | Text(text: string)

  /** What is found at the end of a path. */
  function Look(v: Value, path: seq<string>): Seen {
    if path == [] then (if v.Leaf? then Text(v.text) else Branch)
    else if v.Leaf? || path[0] !in v.m then Nothing
    else Look(v.m[path[0]], path[1..])
  }

  /** The value decides what is at the path: it has something there, or a leaf on the way. */
  predicate Decides(v: Value, path: seq<string>) {
    path == [] || v.Leaf? || (path[0] in v.m && Decides(v.m[path[0]], path[1..]))
  }

  lemma {:induction false} UndecidedShowsNothing(v: Value, path: seq<string>)
    requires !Decides(v, path)
    ensures Look(v, path) == Nothing
  {
    if path[0] in v.m { UndecidedShowsNothing(v.m[path[0]], path[1..]); }
  }

  /** At every path the merged value shows what the second map decides, else what the first shows. */
  lemma {:induction false} MergedPath(a: Value, b: Value, path: seq<string>)
    ensures Look(Over(a, b), path) == if Decides(b, path) then Look(b, path) else Look(a, path)
    decreases path
  {
    if path != [] && a.Node? && b.Node? && path[0] in a.m && path[0] in b.m {
      MergedPath(a.m[path[0]], b.m[path[0]], path[1..]);
    } else if !Decides(b, path) {
      UndecidedShowsNothing(b, path);
    }
  }

  /** Values that show the same at every path are the same, so MergedPath pins the merge down. */
  lemma {:induction false} PathsDetermineValue(a: Value, b: Value)
    requires forall path :: Look(a, path) == Look(b, path)
    ensures a == b
    decreases a
  {
    assert Look(a, []) == Look(b, []);
    if a.Node? {
      forall k ensures At(a, k).Some? <==> At(b, k).Some? {
        LookFirst(a, k);
        LookFirst(b, k);
      }
      forall k | At(a, k).Some? ensures At(a, k) == At(b, k) {
        SamePathsBelow(a, b, k);
        PathsDetermineValue(a.m[k], b.m[k]);
      }
      EqualByKey(a, b);
    }
  }

  lemma {:induction false} LookFirst(v: Value, k: string)
    ensures Look(v, [k]) == Nothing <==> At(v, k).None?
  {
    assert [k][1..] == [];
  }

  lemma {:induction false} LookBelow(v: Value, k: string, path: seq<string>)
    requires At(v, k).Some?
    ensures Look(v, [k] + path) == Look(v.m[k], path)
  {
    assert ([k] + path)[1..] == path;
  }

  lemma {:induction false} SamePathsBelow(a: Value, b: Value, k: string)
    requires (forall path :: Look(a, path) == Look(b, path)) && At(a, k).Some? && At(b, k).Some?
    ensures forall path :: Look(a.m[k], path) == Look(b.m[k], path)
  {
    forall path ensures Look(a.m[k], path) == Look(b.m[k], path) {
      LookBelow(a, k, path);
      LookBelow(b, k, path);
      assert Look(a, [k] + path) == Look(b, [k] + path);
    }
  }

  // ---------------------------------------------------------------------
  // Algebra

  lemma {:induction false} MergeWithItself(a: Value)
    ensures Over(a, a) == a
    decreases a
  {
    if a.Node? {
      forall k | k in a.m ensures Over(a.m[k], a.m[k]) == a.m[k] {
        MergeWithItself(a.m[k]);
      }
      assert Over(a, a).m == a.m;
    }
  }

  lemma {:induction false} EmptyIsIdentity(a: Value)
    requires a.Node?
    ensures Over(EMPTY, a) == a && Over(a, EMPTY) == a
  {
    assert Over(EMPTY, a).m == a.m && Over(a, EMPTY).m == a.m;
  }

  /** Laying the same map over a second time changes nothing. */
  lemma {:induction false} MergeAgain(a: Value, b: Value)
    ensures Over(Over(a, b), b) == Over(a, b)
    decreases b
  {
    if a.Leaf? || b.Leaf? {
      MergeWithItself(b);
    } else {
      forall k | k in b.m ensures Over(Over(a, b).m[k], b.m[k]) == Over(a, b).m[k] {
        if k in a.m { MergeAgain(a.m[k], b.m[k]); } else { MergeWithItself(b.m[k]); }
      }
      assert Over(Over(a, b), b).m == Over(a, b).m;
    }
  }

  /** Whatever path of maps `a` has, `c` has the same keys or a leaf there. */
  ghost predicate Covers(c: Value, a: Value)
    decreases c
  {
    a.Node? && c.Node? ==> forall k :: k in a.m ==> k in c.m && Covers(c.m[k], a.m[k])
  }

  lemma {:induction false} CoversExactly(c: Value, a: Value)
    ensures Covers(c, a) <==> Over(a, c) == c
    decreases c
  {
    if a.Node? && c.Node? {
      forall k | k in a.m && k in c.m ensures Covers(c.m[k], a.m[k]) <==> Over(a.m[k], c.m[k]) == c.m[k] {
        CoversExactly(c.m[k], a.m[k]);
      }
      if Covers(c, a) {
        assert Over(a, c).m == c.m;
      }
      if Over(a, c) == c {
        forall k | k in a.m ensures k in c.m && Covers(c.m[k], a.m[k]) {
          assert k in Over(a, c).m;
        }
      }
    }
  }

  /** At no path does `b` put a leaf between a map of `a` and a map of `c` that does not cover it. */
  ghost predicate Regroupable(a: Value, b: Value, c: Value)
    decreases c
  {
    a.Node? && c.Node? ==>
      if b.Leaf? then Covers(c, a)
      else forall k :: k in a.m && k in b.m && k in c.m ==> Regroupable(a.m[k], b.m[k], c.m[k])
  }

  /** The merge is associative exactly on the triples of which no leaf cuts a map off. */
  lemma {:induction false} RegroupsExactly(a: Value, b: Value, c: Value)
    ensures Over(Over(a, b), c) == Over(a, Over(b, c)) <==> Regroupable(a, b, c)
    decreases c
  {
    if c.Node? && a.Node? {
      if b.Leaf? {
        CoversExactly(c, a);
      } else {
        RegroupsByKey(a, b, c);
        forall k
          ensures OverAt(OverAt(At(a, k), At(b, k)), At(c, k)) == OverAt(At(a, k), OverAt(At(b, k), At(c, k))) <==>
            (k in a.m && k in b.m && k in c.m ==> Regroupable(a.m[k], b.m[k], c.m[k]))
        {
          MissingKeyRegroups(At(a, k), At(b, k), At(c, k));
          if k in a.m && k in b.m && k in c.m { RegroupsExactly(a.m[k], b.m[k], c.m[k]); }
        }
      }
    }
  }

  /** A key of a value, if it is there. */
  function At(v: Value, k: string): Option<Value> {
    if v.Node? && k in v.m then Some(v.m[k]) else None
  }

  function OverAt(a: Option<Value>, b: Option<Value>): Option<Value> {
    if a.None? then b else if b.None? then a else Some(Over(a.value, b.value))
  }

  lemma {:induction false} OverByKey(a: Value, b: Value, k: string)
    requires a.Node? && b.Node?
    ensures At(Over(a, b), k) == OverAt(At(a, k), At(b, k))
  {
  }

  lemma EqualByKey(a: Value, b: Value)
    requires a.Node? && b.Node?
    ensures a == b <==> forall k :: At(a, k) == At(b, k)
  {
    if forall k :: At(a, k) == At(b, k) {
      forall k ensures (k in a.m <==> k in b.m) && (k in a.m ==> a.m[k] == b.m[k]) {
        assert At(a, k) == At(b, k);
      }
      assert a.m == b.m;
    }
  }

  lemma {:induction false} GroupedByKey(a: Value, b: Value, c: Value, k: string)
    requires a.Node? && b.Node? && c.Node?
    ensures At(Over(Over(a, b), c), k) == OverAt(OverAt(At(a, k), At(b, k)), At(c, k))
    ensures At(Over(a, Over(b, c)), k) == OverAt(At(a, k), OverAt(At(b, k), At(c, k)))
  {
    OverByKey(a, b, k);
    OverByKey(b, c, k);
    OverByKey(Over(a, b), c, k);
    OverByKey(a, Over(b, c), k);
  }

  /** Whether the two groupings agree can be told key by key. */
  lemma {:induction false} RegroupsByKey(a: Value, b: Value, c: Value)
    requires a.Node? && b.Node? && c.Node?
    ensures Over(Over(a, b), c) == Over(a, Over(b, c)) <==>
      forall k :: OverAt(OverAt(At(a, k), At(b, k)), At(c, k)) == OverAt(At(a, k), OverAt(At(b, k), At(c, k)))
  {
    var l, r := Over(Over(a, b), c), Over(a, Over(b, c));
    forall k
      ensures At(l, k) == At(r, k) <==>
        OverAt(OverAt(At(a, k), At(b, k)), At(c, k)) == OverAt(At(a, k), OverAt(At(b, k), At(c, k)))
    {
      GroupedByKey(a, b, c, k);
    }
    EqualByKey(l, r);
  }

  /** Where a key is missing from one of the three, the groupings agree anyway. */
  lemma MissingKeyRegroups(a: Option<Value>, b: Option<Value>, c: Option<Value>)
    ensures OverAt(OverAt(a, b), c) == OverAt(a, OverAt(b, c)) <==>
      (a.Some? && b.Some? && c.Some? ==> Over(Over(a.value, b.value), c.value) == Over(a.value, Over(b.value, c.value)))
  {
  }

  /** At every common path the two values are both maps or both leaves. */
  ghost predicate SameShape(a: Value, b: Value)
    decreases b
  {
    && (a.Leaf? <==> b.Leaf?)
    && (a.Node? && b.Node? ==> forall k :: k in a.m && k in b.m ==> SameShape(a.m[k], b.m[k]))
  }

  /** Regrouping is safe as soon as one neighbouring pair never mixes leaves and maps. */
  lemma {:induction false} SameShapeRegroups(a: Value, b: Value, c: Value)
    requires SameShape(a, b) || SameShape(b, c)
    ensures Regroupable(a, b, c) && Over(Over(a, b), c) == Over(a, Over(b, c))
    decreases c
  {
    if a.Node? && b.Node? && c.Node? {
      forall k | k in a.m && k in b.m && k in c.m ensures Regroupable(a.m[k], b.m[k], c.m[k]) {
        SameShapeRegroups(a.m[k], b.m[k], c.m[k]);
      }
    }
    RegroupsExactly(a, b, c);
  }

  /** A leaf between two maps: grouped from the left the first map is lost, from the right it is kept. */
  lemma LeafBetweenMaps()
    ensures var a, b := Node(map["x" := Node(map["p" := Leaf("1")])]), Node(map["x" := Leaf("2")]);
      var c := Node(map["x" := Node(map["q" := Leaf("3")])]);
      Look(Over(Over(a, b), c), ["x", "p"]) == Nothing && Look(Over(a, Over(b, c)), ["x", "p"]) == Text("1")
  {
    var a1, b1, c1 := Node(map["p" := Leaf("1")]), Leaf("2"), Node(map["q" := Leaf("3")]);
    var a, b, c := Node(map["x" := a1]), Node(map["x" := b1]), Node(map["x" := c1]);
    var path := ["x", "p"];
    assert path[1..] == ["p"] && path[1..][1..] == [];
    assert Over(Over(a, b), c).m["x"] == c1;
    assert Over(a, Over(b, c)).m["x"] == Over(a1, c1);
    assert Over(a1, c1).m["p"] == Leaf("1");
    assert Look(Over(a1, c1), path[1..]) == Text("1");
  }

  // ---------------------------------------------------------------------
  // Value files, then --set

  /** What the sources say together: the last one that decides the path has its way. */
  function LastWord(sources: seq<Value>, path: seq<string>): Seen {
    if sources == [] then Look(EMPTY, path)
    else
      var last := sources[|sources| - 1];
      if Decides(last, path) then Look(last, path) else LastWord(sources[..|sources| - 1], path)
  }

  function Folded(sources: seq<Value>): Value {
    if sources == [] then EMPTY else Over(Folded(sources[..|sources| - 1]), sources[|sources| - 1])
  }

  lemma {:induction false} FoldedSaysLastWord(sources: seq<Value>, path: seq<string>)
    ensures Look(Folded(sources), path) == LastWord(sources, path)
  {
    if sources != [] {
      FoldedSaysLastWord(sources[..|sources| - 1], path);
      MergedPath(Folded(sources[..|sources| - 1]), sources[|sources| - 1], path);
    }
  }

  /** A values file as read: its top-level map, or why it could not be read or parsed. */
  datatype Read = Good(value: Value) | Bad(error: string)

  predicate IsMap(r: Read) {
    r.Good? ==> r.value.Node?
  }

  function ValuesOf(files: seq<Read>): seq<Value>
    requires forall i :: 0 <= i < |files| ==> files[i].Good?
  {
    seq(|files|, i requires 0 <= i < |files| => files[i].value)
  }

  ghost predicate IsFirstError(files: seq<Read>, r: Read) {
    exists i :: 0 <= i < |files| && files[i] == r && r.Bad? && forall j :: 0 <= j < i ==> files[j].Good?
  }

  /** `resoleValuesFromFiles`: all files merged in order, or the error of the first bad one. */
  method ResolveValuesFromFiles(files: seq<Read>) returns (r: Read)
    requires forall i :: 0 <= i < |files| ==> IsMap(files[i])
    ensures r.Good? ==> forall i :: 0 <= i < |files| ==> files[i].Good?
    ensures r.Good? ==> r.value.Node? && r.value == Folded(ValuesOf(files))
    ensures r.Bad? ==> IsFirstError(files, r)
  {
    var base := EMPTY;
    for i := 0 to |files|
      invariant forall j :: 0 <= j < i ==> files[j].Good?
      invariant base.Node? && base == Folded(ValuesOf(files[..i]))
    {
      if files[i].Bad? { return files[i]; }
      assert ValuesOf(files[..i + 1])[..i] == ValuesOf(files[..i]);
      base := MergeMaps(base, files[i].value);
    }
    assert files[..|files|] == files;
    r := Good(base);
  }

  /** The values of an installation: at every path the last of the files and --set that decides it
      has its way, and --set comes last. */
  method InstallValues(files: seq<Read>, setValues: Value) returns (r: Read)
    requires setValues.Node? && forall i :: 0 <= i < |files| ==> IsMap(files[i])
    ensures r.Good? <==> forall i :: 0 <= i < |files| ==> files[i].Good?
    ensures r.Good? ==> forall path :: Look(r.value, path) == LastWord(ValuesOf(files) + [setValues], path)
    ensures r.Bad? ==> IsFirstError(files, r)
  {
    r := ResolveValuesFromFiles(files);
    if r.Bad? { return; }
    var values := MergeMaps(r.value, setValues);
    r := Good(values);
    assert (ValuesOf(files) + [setValues])[..|files|] == ValuesOf(files);
    forall path ensures Look(values, path) == LastWord(ValuesOf(files) + [setValues], path) {
      FoldedSaysLastWord(ValuesOf(files) + [setValues], path);
    }
  }
}
