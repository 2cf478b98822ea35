/** deep_merge on the dictionaries the program really handles: mutable objects that refer to one another. */
module MergeInPlace {
  import opened Wrappers
  import opened DeepMerge

  /** What a dictionary holds under a key: a plain value, or another dictionary object. */
  datatype Node = Text(text: string) | Ref(dict: Dictionary)

  class Dictionary {
    var entries: map<string, Node>

    /** dict.copy(): a new object with the same values, nested dictionaries shared. */
    constructor Copy(original: Dictionary)
      ensures entries == original.entries
    {
      entries := original.entries;
    }
  }

  /** The object d, with the objects of `region` below it, is the tree v. */
  ghost predicate Shows(d: Dictionary, v: Value, region: set<Dictionary>)
    reads region
    decreases v, 0
  {
    && d in region && v.Dict? && d.entries.Keys == v.entries.Keys
    && forall k | k in v.entries :: NodeShows(d.entries[k], v.entries[k], region)
  }

  ghost predicate NodeShows(n: Node, v: Value, region: set<Dictionary>)
    reads region
    decreases v, 1
  {
    if v.Leaf? then n == Text(v.text) else n.Ref? && Shows(n.dict, v, region)
  }

  /** A tree stays what it is when other objects are added to the region. */
  lemma {:induction false} Grow(d: Dictionary, v: Value, region: set<Dictionary>, larger: set<Dictionary>)
    requires Shows(d, v, region) && region <= larger
    ensures Shows(d, v, larger)
    decreases v, 0
  {
    forall k | k in v.entries ensures NodeShows(d.entries[k], v.entries[k], larger) {
      GrowNode(d.entries[k], v.entries[k], region, larger);
    }
  }

  lemma {:induction false} GrowNode(n: Node, v: Value, region: set<Dictionary>, larger: set<Dictionary>)
    requires NodeShows(n, v, region) && region <= larger
    ensures NodeShows(n, v, larger)
    decreases v, 1
  {
    if v.Dict? {
      assert Shows(n.dict, v, region);
      Grow(n.dict, v, region, larger);
    }
  }

  /** The value under one key once the keys in `done` of the override have been processed. */
  function EntryAfter(base: Value, over: Value, done: set<string>, k: string): Value
    requires base.Dict? && over.Dict? && done <= over.entries.Keys
    requires k in base.entries.Keys + done
  {
    if k !in done then base.entries[k]
    else if k in base.entries then Merge(base.entries[k], over.entries[k])
    else over.entries[k]
  }

  /** Under the keys processed so far the merge stands, under the others still the base. */
  ghost predicate MergedSoFar(entries: map<string, Node>, vb: Value, vo: Value, done: set<string>, region: set<Dictionary>)
    requires vb.Dict? && vo.Dict? && done <= vo.entries.Keys
    reads region
  {
    && entries.Keys == vb.entries.Keys + done
    && forall k | k in entries :: NodeShows(entries[k], EntryAfter(vb, vo, done, k), region)
  }

  predicate BothDicts(base: map<string, Node>, over: map<string, Node>, k: string) {
    k in base && base[k].Ref? && k in over && over[k].Ref?
  }

  /** Two dictionaries under a key give a new one; anything else is the very object one of the inputs holds. */
  ghost predicate SharesOrNew(entries: map<string, Node>, base: map<string, Node>, over: map<string, Node>,
                              done: set<string>, added: set<Dictionary>)
    requires done <= over.Keys && entries.Keys == base.Keys + done
  {
    forall k | k in entries ::
      if k !in done then entries[k] == base[k]
      else if BothDicts(base, over, k) then entries[k].Ref? && entries[k].dict in added
      else entries[k] == over[k]
  }

  lemma GrowMerged(entries: map<string, Node>, vb: Value, vo: Value, done: set<string>,
                   region: set<Dictionary>, larger: set<Dictionary>)
    requires vb.Dict? && vo.Dict? && done <= vo.entries.Keys && region <= larger
    requires MergedSoFar(entries, vb, vo, done, region)
    ensures MergedSoFar(entries, vb, vo, done, larger)
  {
    forall k | k in entries ensures NodeShows(entries[k], EntryAfter(vb, vo, done, k), larger) {
      GrowNode(entries[k], EntryAfter(vb, vo, done, k), region, larger);
    }
  }

  lemma OneMore(entries: map<string, Node>, key: string, merged: Node, vb: Value, vo: Value, done: set<string>,
                region: set<Dictionary>)
    requires vb.Dict? && vo.Dict? && done <= vo.entries.Keys && key in vo.entries && key !in done
    requires MergedSoFar(entries, vb, vo, done, region)
    requires NodeShows(merged, EntryAfter(vb, vo, done + {key}, key), region)
    ensures MergedSoFar(entries[key := merged], vb, vo, done + {key}, region)
  {
    forall k | k in entries && k != key ensures EntryAfter(vb, vo, done + {key}, k) == EntryAfter(vb, vo, done, k) {
    }
  }

  lemma OneMoreShared(entries: map<string, Node>, key: string, merged: Node, base: map<string, Node>,
                      over: map<string, Node>, done: set<string>, added: set<Dictionary>, more: set<Dictionary>)
    requires done <= over.Keys && entries.Keys == base.Keys + done && key in over && key !in done
    requires SharesOrNew(entries, base, over, done, added)
    requires if BothDicts(base, over, key) then merged.Ref? && merged.dict in more else merged == over[key]
    ensures SharesOrNew(entries[key := merged], base, over, done + {key}, added + more)
  {
  }

  lemma ShownEntries(d: Dictionary, v: Value, region: set<Dictionary>)
    requires Shows(d, v, region)
    ensures v.Dict? && d.entries.Keys == v.entries.Keys
    ensures forall k | k in v.entries :: NodeShows(d.entries[k], v.entries[k], region)
  {
  }

  lemma NothingMergedYet(base: Dictionary, over: Dictionary, vb: Value, vo: Value, region: set<Dictionary>)
    requires vo.Dict? && Shows(base, vb, region)
    ensures MergedSoFar(base.entries, vb, vo, {}, region)
    ensures SharesOrNew(base.entries, base.entries, over.entries, {}, {})
  {
  }

  lemma EverythingMerged(result: Dictionary, vb: Value, vo: Value, below: set<Dictionary>, region: set<Dictionary>)
    requires vb.Dict? && vo.Dict? && MergedSoFar(result.entries, vb, vo, vo.entries.Keys, below)
    requires below <= region && result in region
    ensures Shows(result, Merge(vb, vo), region)
  {
    GrowMerged(result.entries, vb, vo, vo.entries.Keys, below, region);
    forall k | k in result.entries ensures NodeShows(result.entries[k], Merge(vb, vo).entries[k], region) {
    }
  }

  lemma StillSharesOrNew(entries: map<string, Node>, base: map<string, Node>, over: map<string, Node>,
                         done: set<string>, added: set<Dictionary>, more: set<Dictionary>)
    requires done <= over.Keys && entries.Keys == base.Keys + done && added <= more
    requires SharesOrNew(entries, base, over, done, added)
    ensures SharesOrNew(entries, base, over, done, more)
  {
  }

  /** deep_merge: copy the base, then take the override's items one by one, in any order. The result shows the
      merge of the two trees; no existing object is written, and whatever was not merged is shared, not copied. */
  method DeepMergeDicts(base: Dictionary, over: Dictionary, ghost vb: Value, ghost vo: Value, ghost region: set<Dictionary>)
    returns (result: Dictionary, ghost added: set<Dictionary>)
    requires Shows(base, vb, region) && Shows(over, vo, region)
    ensures fresh(added) && result in added
    ensures Shows(result, Merge(vb, vo), region + added)
    ensures result.entries.Keys == base.entries.Keys + over.entries.Keys
    ensures SharesOrNew(result.entries, base.entries, over.entries, over.entries.Keys, added)
    decreases vo, 0
  {
    hide Shows, NodeShows, Merge, MergedSoFar, SharesOrNew;
    ShownEntries(base, vb, region);
    ShownEntries(over, vo, region);
    result := new Dictionary.Copy(base);
    var rest := over.entries.Keys;
    ghost var done: set<string>, nested: set<Dictionary> := {}, {};
    NothingMergedYet(base, over, vb, vo, region);
    assert region + nested == region;
    while rest != {}
      invariant fresh(nested) && result !in nested && fresh(result)
      invariant rest + done == over.entries.Keys && rest !! done
      invariant result.entries.Keys == base.entries.Keys + done
      invariant MergedSoFar(result.entries, vb, vo, done, region + nested)
      invariant SharesOrNew(result.entries, base.entries, over.entries, done, nested)
      decreases rest
    {
      var key :| key in rest;
      var mine := if key in result.entries then Some(result.entries[key]) else None;
      ghost var vMine := if key in base.entries then Some(vb.entries[key]) else None;
      StillBase(result.entries, base.entries, over.entries, done, nested, key);
      var merged, more := MergeNodes(mine, over.entries[key], vMine, vo.entries[key], region);
      GrowMerged(result.entries, vb, vo, done, region + nested, region + (nested + more));
      GrowNode(merged, EntryAfter(vb, vo, done + {key}, key), region + more, region + (nested + more));
      OneMore(result.entries, key, merged, vb, vo, done, region + (nested + more));
      OneMoreShared(result.entries, key, merged, base.entries, over.entries, done, nested, more);
      result.entries := result.entries[key := merged];
      rest, done, nested := rest - {key}, done + {key}, nested + more;
    }
    assert done == over.entries.Keys;
    added := nested + {result};
    EverythingMerged(result, vb, vo, region + nested, region + added);
    StillSharesOrNew(result.entries, base.entries, over.entries, done, nested, added);
  }

  lemma StillBase(entries: map<string, Node>, base: map<string, Node>, over: map<string, Node>, done: set<string>,
                  added: set<Dictionary>, key: string)
    requires done <= over.Keys && entries.Keys == base.Keys + done && SharesOrNew(entries, base, over, done, added)
    requires key !in done
    ensures key in entries ==> key in base && entries[key] == base[key]
  {
  }

  /** One item of the override: merged when both sides have a dictionary, else taken over as it is. */
  method MergeNodes(mine: Option<Node>, value: Node, ghost vMine: Option<Value>, ghost vValue: Value,
                    ghost region: set<Dictionary>)
    returns (merged: Node, ghost more: set<Dictionary>)
    requires NodeShows(value, vValue, region) && mine.Some? == vMine.Some?
    requires mine.Some? ==> NodeShows(mine.value, vMine.value, region)
    ensures fresh(more)
    ensures NodeShows(merged, if vMine.Some? then Merge(vMine.value, vValue) else vValue, region + more)
    ensures if mine.Some? && mine.value.Ref? && value.Ref? then merged.Ref? && merged.dict in more else merged == value
    decreases vValue, 1
  {
    if mine.Some? && mine.value.Ref? && value.Ref? {
      var nested;
      nested, more := DeepMergeDicts(mine.value.dict, value.dict, vMine.value, vValue, region);
      merged := Ref(nested);
    } else {
      merged, more := value, {};
      assert region + more == region;
    }
  }
}
