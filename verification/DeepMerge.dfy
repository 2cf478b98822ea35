/** What deep_merge computes, on dictionaries as trees, and the laws it obeys. */
module DeepMerge {
  import opened Wrappers

  datatype Value = Leaf(text: string) | Dict(entries: map<string, Value>)

  /** Override wins, except that two dictionaries are merged key by key. */
  function Merge(base: Value, over: Value): Value
    decreases over
  {
    if base.Dict? && over.Dict? then
      Dict(map k | k in base.entries.Keys + over.entries.Keys ::
             if k !in over.entries then base.entries[k]
             else if k in base.entries then Merge(base.entries[k], over.entries[k])
             else over.entries[k])
    else over
  }

  // ---- identities ----

  /** Every key path of `inner` exists in `outer`, and where both go on, both go on. */
  ghost predicate Covers(outer: Value, inner: Value)
    decreases inner
  {
    inner.Dict? && outer.Dict? ==>
      forall k | k in inner.entries :: k in outer.entries && Covers(outer.entries[k], inner.entries[k])
  }

  /** Merging adds nothing to the override exactly when the override already covers the base. */
  lemma {:induction false} CoversExactly(base: Value, over: Value)
    ensures Merge(base, over) == over <==> Covers(over, base)
    decreases base
  {
    if base.Dict? && over.Dict? {
      var m := Merge(base, over);
      forall k | k in base.entries && k in over.entries
        ensures m.entries[k] == over.entries[k] <==> Covers(over.entries[k], base.entries[k])
      {
        CoversExactly(base.entries[k], over.entries[k]);
      }
      if Covers(over, base) {
        assert m.entries == over.entries;
      } else {
        var k :| k in base.entries && (k !in over.entries || !Covers(over.entries[k], base.entries[k]));
        assert k in m.entries;
        if k in over.entries {
          assert m.entries[k] != over.entries[k];
        }
      }
    }
  }

  /** Re-applying an override changes nothing. */
  lemma {:induction false} Reapply(base: Value, over: Value)
    ensures Merge(Merge(base, over), over) == Merge(base, over)
    decreases over
  {
    if base.Dict? && over.Dict? {
      var once := Merge(base, over);
      forall k | k in over.entries && k in base.entries
        ensures Merge(once.entries[k], over.entries[k]) == once.entries[k]
      {
        Reapply(base.entries[k], over.entries[k]);
      }
      forall k | k in over.entries && k !in base.entries
        ensures Merge(over.entries[k], over.entries[k]) == over.entries[k]
      {
        MergeSelf(over.entries[k]);
      }
      assert Merge(once, over).entries == once.entries;
    } else {
      MergeSelf(over);
    }
  }

  lemma {:induction false} MergeSelf(v: Value)
    ensures Merge(v, v) == v
    decreases v
  {
    if v.Dict? {
      forall k | k in v.entries ensures Merge(v.entries[k], v.entries[k]) == v.entries[k] {
        MergeSelf(v.entries[k]);
      }
      assert Merge(v, v).entries == v.entries;
    }
  }

  // ---- associativity ----

  /** What associativity needs: wherever the middle operand replaces a dictionary by a leaf and the last one
      puts a dictionary back, that dictionary covers the one replaced. */
  ghost predicate Restores(a: Value, b: Value, c: Value)
    decreases a
  {
    a.Dict? && c.Dict? ==>
      if b.Leaf? then Covers(c, a)
      else forall k | k in a.entries && k in b.entries && k in c.entries ::
             Restores(a.entries[k], b.entries[k], c.entries[k])
  }

  lemma {:induction false} AssociativeExactly(a: Value, b: Value, c: Value)
    ensures Merge(Merge(a, b), c) == Merge(a, Merge(b, c)) <==> Restores(a, b, c)
    decreases a
  {
    if a.Dict? && c.Dict? {
      if b.Leaf? {
        CoversExactly(a, c);
      } else {
        var left, right := Merge(Merge(a, b), c), Merge(a, Merge(b, c));
        assert left.entries.Keys == right.entries.Keys;
        forall k | k in left.entries
          ensures left.entries[k] == right.entries[k] <==>
                  (k in a.entries && k in b.entries && k in c.entries ==>
                     Restores(a.entries[k], b.entries[k], c.entries[k]))
        {
          if k in a.entries && k in b.entries && k in c.entries {
            AssociativeExactly(a.entries[k], b.entries[k], c.entries[k]);
          }
        }
        if Restores(a, b, c) {
          assert left.entries == right.entries;
        } else {
          var k :| k in a.entries && k in b.entries && k in c.entries
                   && !Restores(a.entries[k], b.entries[k], c.entries[k]);
          assert k in left.entries && left.entries[k] != right.entries[k];
        }
      }
    }
  }

  /** No key path is a dictionary in one operand and a leaf in the other. */
  ghost predicate NoConflict(a: Value, b: Value)
    decreases a
  {
    && (a.Leaf? <==> b.Leaf?)
    && (a.Dict? && b.Dict? ==> forall k | k in a.entries && k in b.entries :: NoConflict(a.entries[k], b.entries[k]))
  }

  /** Layers that never disagree about the shape of a path can be merged in either grouping. */
  lemma {:induction false} AssociativeWithoutConflict(a: Value, b: Value, c: Value)
    requires NoConflict(a, b)
    ensures Merge(Merge(a, b), c) == Merge(a, Merge(b, c))
  {
    NoConflictRestores(a, b, c);
    AssociativeExactly(a, b, c);
  }

  lemma {:induction false} NoConflictRestores(a: Value, b: Value, c: Value)
    requires NoConflict(a, b)
    ensures Restores(a, b, c)
    decreases a
  {
    if a.Dict? && c.Dict? {
      forall k | k in a.entries && k in b.entries && k in c.entries
        ensures Restores(a.entries[k], b.entries[k], c.entries[k])
      {
        NoConflictRestores(a.entries[k], b.entries[k], c.entries[k]);
      }
    }
  }

  /** A leaf in the middle layer forgets what the first layer had under the key. */
  lemma GroupingMatters()
    ensures var a := Dict(map["tools" := Dict(map["x" := Leaf("1")])]);
            var b := Dict(map["tools" := Leaf("off")]);
            var c := Dict(map["tools" := Dict(map[])]);
      Merge(Merge(a, b), c) != Merge(a, Merge(b, c))
  {
    var a := Dict(map["tools" := Dict(map["x" := Leaf("1")])]);
    var b := Dict(map["tools" := Leaf("off")]);
    var c := Dict(map["tools" := Dict(map[])]);
    assert "x" in a.entries["tools"].entries;
    assert !Covers(c.entries["tools"], a.entries["tools"]);
    assert "tools" in a.entries && "tools" in b.entries && "tools" in c.entries;
    assert !Restores(a.entries["tools"], b.entries["tools"], c.entries["tools"]);
    AssociativeExactly(a, b, c);
  }

  // ---- lookups ----

  function LeafAt(v: Value, path: seq<string>): Option<string> {
    if v.Leaf? then (if path == [] then Some(v.text) else None)
    else if path == [] || path[0] !in v.entries then None
    else LeafAt(v.entries[path[0]], path[1..])
  }

  /** The value says something about this path: it has an entry there, or a leaf on the way. */
  predicate Decides(v: Value, path: seq<string>) {
    v.Leaf? || path == [] || (path[0] in v.entries && Decides(v.entries[path[0]], path[1..]))
  }

  /** Looking up any path in a merge: the override answers where it decides the path, the base elsewhere. */
  lemma {:induction false} LookupInMerge(base: Value, over: Value, path: seq<string>)
    ensures LeafAt(Merge(base, over), path) == if Decides(over, path) then LeafAt(over, path) else LeafAt(base, path)
    decreases over
  {
    if base.Dict? && over.Dict? && path != [] && path[0] in over.entries {
      if path[0] in base.entries {
        LookupInMerge(base.entries[path[0]], over.entries[path[0]], path[1..]);
      } else {
        UndecidedIsNone(over.entries[path[0]], path[1..]);
      }
    } else if base.Leaf? && over.Dict? {
      UndecidedIsNone(over, path);
    }
  }

  lemma {:induction false} UndecidedIsNone(v: Value, path: seq<string>)
    ensures LeafAt(v, path).Some? ==> Decides(v, path)
    decreases v
  {
    if v.Dict? && path != [] && path[0] in v.entries {
      UndecidedIsNone(v.entries[path[0]], path[1..]);
    }
  }

  /** Without conflicts the rule is the expected one: the override's leaf if it has one, else the base's. */
  lemma {:induction false} OverrideElseBase(base: Value, over: Value, path: seq<string>)
    requires NoConflict(base, over)
    ensures LeafAt(Merge(base, over), path) ==
            if LeafAt(over, path).Some? then LeafAt(over, path) else LeafAt(base, path)
  {
    LookupInMerge(base, over, path);
    UndecidedIsNone(over, path);
    DecidedWithoutLeaf(base, over, path);
  }

  lemma {:induction false} DecidedWithoutLeaf(base: Value, over: Value, path: seq<string>)
    requires NoConflict(base, over)
    ensures Decides(over, path) && LeafAt(over, path).None? ==> LeafAt(base, path).None?
    decreases over
  {
    if base.Dict? && path != [] && path[0] in base.entries && path[0] in over.entries {
      DecidedWithoutLeaf(base.entries[path[0]], over.entries[path[0]], path[1..]);
    }
  }
}
