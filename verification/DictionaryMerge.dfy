/** Merging one property dictionary into another, recursively: what a deep merge is, and
    MergeDictionaryIntoDictionary of IOUSBUserClient.c, which works in place. Module CopyMerge has the
    one of AppleUSBMergeNub.c, which works on copies. */
module DictionaryMerge {

  // What a dictionary means: its keys, and under each a plain value or again such a tree.
  datatype Tree = Plain(value: int) | Dictionary(children: map<string, Tree>)

  // ---------- the merged dictionary ----------

  function DeepMerge(t: Tree, s: Tree): Tree
    decreases s
  {
    if t.Dictionary? && s.Dictionary? then
      Dictionary(map k | k in t.children.Keys + s.children.Keys ::
        if k !in s.children then t.children[k]
        else if k !in t.children then s.children[k]
        else DeepMerge(t.children[k], s.children[k]))
    else s
  }

  /** Whether a merge of s into t can succeed at all: no source dictionary that meets a dictionary
      of the target is empty. */
  predicate Mergeable(t: Tree, s: Tree)
    decreases s
  {
    t.Dictionary? && s.Dictionary? ==>
      && s.children != map[]
      && (forall k :: k in s.children && k in t.children ==> Mergeable(t.children[k], s.children[k]))
  }

  // What ends up under a key of the source, and what merging that key needs.
  function MergedAt(t: map<string, Tree>, s: map<string, Tree>, k: string): Tree
    requires k in s
  {
    if k in t then DeepMerge(t[k], s[k]) else s[k]
  }

  predicate MergeableAt(t: map<string, Tree>, s: map<string, Tree>, k: string)
    requires k in s
  {
    k in t ==> Mergeable(t[k], s[k])
  }

  // Whether setObject succeeds, by the path of keys it is called for.
  type Luck = seq<string> -> bool

  /** Every key that a merge in place has to set can be set, at any depth. */
  predicate AllSet(t: Tree, s: Tree, luck: Luck, path: seq<string>)
    decreases s
  {
    t.Dictionary? && s.Dictionary? ==>
      forall k :: k in s.children ==>
        if k in t.children && t.children[k].Dictionary? && s.children[k].Dictionary?
        then AllSet(t.children[k], s.children[k], luck, path + [k])
        else luck(path + [k])
  }

  predicate SetsAt(t: map<string, Tree>, s: map<string, Tree>, k: string, luck: Luck, path: seq<string>)
    requires k in s
  {
    if k in t && t[k].Dictionary? && s[k].Dictionary? then AllSet(t[k], s[k], luck, path + [k]) else luck(path + [k])
  }

  // The keys of the source that can be merged, and set.
  ghost predicate IsGood(t: map<string, Tree>, s: map<string, Tree>, luck: Luck, path: seq<string>, good: set<string>) {
    good == Good(t, s, luck, path)
  }

  ghost function Good(t: map<string, Tree>, s: map<string, Tree>, luck: Luck, path: seq<string>): set<string> {
    set k | k in s && MergeableAt(t, s, k) && SetsAt(t, s, k, luck, path)
  }

  lemma GoodMeans(t: map<string, Tree>, s: map<string, Tree>, luck: Luck, path: seq<string>, good: set<string>, k: string)
    requires IsGood(t, s, luck, path, good) && k in s
    ensures k in good <==> MergeableAt(t, s, k) && SetsAt(t, s, k, luck, path)
  {}

  lemma AllGood(t: map<string, Tree>, s: map<string, Tree>, luck: Luck, path: seq<string>, good: set<string>)
    requires IsGood(t, s, luck, path, good)
    ensures s != map[] && s.Keys <= good <==>
      Mergeable(Dictionary(t), Dictionary(s)) && AllSet(Dictionary(t), Dictionary(s), luck, path)
  {
    MergedOnAll(t, s);
    if s.Keys <= good {
      forall k | k in s
        ensures MergeableAt(t, s, k) && SetsAt(t, s, k, luck, path)
      {
        assert k in good;
      }
    }
  }

  // The target once some keys of the source are done.
  function MergedOn(t: map<string, Tree>, s: map<string, Tree>, done: set<string>): map<string, Tree>
    requires done <= s.Keys
  {
    map k | k in t.Keys + done :: if k in done then MergedAt(t, s, k) else t[k]
  }

  lemma MergedOnAll(t: map<string, Tree>, s: map<string, Tree>)
    ensures Dictionary(MergedOn(t, s, s.Keys)) == DeepMerge(Dictionary(t), Dictionary(s))
    ensures Mergeable(Dictionary(t), Dictionary(s)) <==> s != map[] && forall k :: k in s ==> MergeableAt(t, s, k)
  {
    assert MergedOn(t, s, s.Keys) == DeepMerge(Dictionary(t), Dictionary(s)).children;
  }

  lemma MergedOnOneMore(t: map<string, Tree>, s: map<string, Tree>, done: set<string>, k: string)
    requires done <= s.Keys && k in s && k !in done
    ensures MergedOn(t, s, done + {k}) == MergedOn(t, s, done)[k := MergedAt(t, s, k)]
    ensures MergedAt(MergedOn(t, s, done), s, k) == MergedAt(t, s, k)
    ensures MergeableAt(MergedOn(t, s, done), s, k) == MergeableAt(t, s, k)
  {}

  /** Merging the same source again changes nothing. */
  lemma {:induction false} MergeTwice(t: Tree, s: Tree)
    ensures DeepMerge(DeepMerge(t, s), s) == DeepMerge(t, s)
    decreases s
  {
    if s.Dictionary? {
      var m := DeepMerge(t, s);
      forall k | k in s.children
        ensures DeepMerge(m.children[k], s.children[k]) == m.children[k]
      {
        if t.Dictionary? && k in t.children {
          MergeTwice(t.children[k], s.children[k]);
        } else {
          MergeSelf(s.children[k]);
        }
      }
      assert DeepMerge(m, s).children == m.children;
    }
  }

  lemma {:induction false} MergeSelf(s: Tree)
    ensures DeepMerge(s, s) == s
    decreases s
  {
    if s.Dictionary? {
      forall k | k in s.children
        ensures DeepMerge(s.children[k], s.children[k]) == s.children[k]
      {
        MergeSelf(s.children[k]);
      }
      assert DeepMerge(s, s).children == s.children;
    }
  }

  // No dictionary of the source is empty, at any depth.
  predicate NoneEmpty(s: Tree) {
    s.Dictionary? ==> s.children != map[] && forall k :: k in s.children ==> NoneEmpty(s.children[k])
  }

  /** Merging the same source again need not succeed, even if the first time did: it does exactly
      when no dictionary of the source is empty, at any depth. */
  lemma {:induction false} MergeableAgain(t: Tree, s: Tree)
    ensures Mergeable(DeepMerge(t, s), s) <==> NoneEmpty(s)
    decreases s
  {
    if s.Dictionary? {
      var m := DeepMerge(t, s);
      forall k | k in s.children
        ensures Mergeable(m.children[k], s.children[k]) <==> NoneEmpty(s.children[k])
      {
        if t.Dictionary? && k in t.children {
          MergeableAgain(t.children[k], s.children[k]);
        } else {
          MergeSelf(s.children[k]);
          MergeableAgain(s.children[k], s.children[k]);
        }
      }
    }
  }

  /** It does happen: an empty dictionary goes in under a new key, and meets itself the second time. */
  lemma FailsAgain()
    ensures var s := Dictionary(map["a" := Dictionary(map[])]);
      Mergeable(Dictionary(map[]), s) && !Mergeable(DeepMerge(Dictionary(map[]), s), s)
  {
    var s := Dictionary(map["a" := Dictionary(map[])]);
    assert "a" in s.children && !NoneEmpty(s.children["a"]);
    MergeableAgain(Dictionary(map[]), s);
  }

  /** But it leaves everything as it is, however far it gets. */
  lemma PartlyAgain(t: map<string, Tree>, s: map<string, Tree>, done: set<string>)
    requires done <= s.Keys
    ensures MergedOn(MergedOn(t, s, s.Keys), s, done) == MergedOn(t, s, s.Keys)
  {
    var m := MergedOn(t, s, s.Keys);
    forall k | k in done
      ensures MergedAt(m, s, k) == m[k]
    {
      if k in t {
        MergeTwice(t[k], s[k]);
      } else {
        MergeSelf(s[k]);
      }
    }
  }

  // ---------- path by path ----------

  datatype Option<T> = None | Some(value: T)

  // The plain value at the end of a path of keys.
  function PlainAt(t: Tree, path: seq<string>): Option<int> {
    if path == [] then (if t.Plain? then Some(t.value) else None)
    else if t.Dictionary? && path[0] in t.children then PlainAt(t.children[path[0]], path[1..])
    else None
  }

  // The source has something to say about the path: it leads all the way, or runs into a plain value.
  predicate Decides(s: Tree, path: seq<string>) {
    || path == [] || s.Plain?
    || (path[0] in s.children && Decides(s.children[path[0]], path[1..]))
  }

  /** Path by path: where the source decides, the merged dictionary has what the source has, and
      everywhere else what the target had. */
  lemma {:induction false} MergedPath(t: Tree, s: Tree, path: seq<string>)
    ensures PlainAt(DeepMerge(t, s), path) == if Decides(s, path) then PlainAt(s, path) else PlainAt(t, path)
  {
    if !Decides(s, path) {
      UndecidedIsAbsent(s, path);
    }
    if path != [] && t.Dictionary? && s.Dictionary? && path[0] in s.children && path[0] in t.children {
      MergedPath(t.children[path[0]], s.children[path[0]], path[1..]);
    }
  }

  lemma {:induction false} UndecidedIsAbsent(s: Tree, path: seq<string>)
    requires !Decides(s, path)
    ensures PlainAt(s, path) == None
  {
    if path[0] in s.children {
      UndecidedIsAbsent(s.children[path[0]], path[1..]);
    }
  }

  // ---------- dictionaries in memory ----------

  datatype Value = Leaf(value: int) | Sub(dict: Dict)

  /** A dictionary object. Repr holds it and everything reachable from it; sub-dictionaries may be
      shared, but a dictionary never contains itself. */
  class Dict {
    var entries: map<string, Value>
    ghost var tree: Tree
    ghost var Repr: set<Dict>

    ghost predicate Valid()
      reads this, Repr
      decreases Repr
    {
      && this in Repr && tree.Dictionary? && tree.children.Keys == entries.Keys
      && (forall k :: k in entries && entries[k].Leaf? ==> tree.children[k] == Plain(entries[k].value))
      && (forall k :: k in entries && entries[k].Sub? ==>
            var d := entries[k].dict;
            d in Repr && d.Repr <= Repr && this !in d.Repr && d.Valid() && tree.children[k] == d.tree)
    }

    // Valid, except that what is under k may have changed unnoticed.
    ghost predicate ValidBut(k: string)
      requires k in entries && entries[k].Sub?
      reads this, Repr, entries[k].dict, entries[k].dict.Repr
    {
      && this in Repr && tree.Dictionary? && tree.children.Keys == entries.Keys
      && entries[k].dict.Valid() && this !in entries[k].dict.Repr
      && (forall j :: j in entries && entries[j].Leaf? ==> tree.children[j] == Plain(entries[j].value))
      && (forall j :: j in entries && entries[j].Sub? && j != k ==>
            var d := entries[j].dict;
            d in Repr && d.Repr <= Repr && this !in d.Repr && d.Valid() && tree.children[j] == d.tree)
    }

    ghost method Refresh(k: string)
      requires k in entries && entries[k].Sub? && ValidBut(k)
      modifies `tree, `Repr
      ensures Valid() && Repr == old(Repr) + entries[k].dict.Repr
      ensures tree == Dictionary(old(tree.children)[k := entries[k].dict.tree])
    {
      tree, Repr := Dictionary(tree.children[k := entries[k].dict.tree]), Repr + entries[k].dict.Repr;
    }

    constructor ()
      ensures Valid() && entries == map[] && Repr == {this}
    {
      entries, tree, Repr := map[], Dictionary(map[]), {this};
    }

    // A shallow copy: it shares all sub-dictionaries with the original.
    constructor WithDictionary(d: Dict)
      requires d.Valid()
      ensures Valid() && entries == d.entries && tree == d.tree && fresh(Repr - d.Repr)
    {
      entries, tree, Repr := d.entries, d.tree, {this} + d.Repr;
    }

    // setObject, which fails for want of memory.
    method SetObject(k: string, v: Value, memory: bool) returns (ok: bool)
      requires Valid() && (v.Sub? ==> v.dict.Valid() && this !in v.dict.Repr)
      modifies this
      ensures Valid() && ok == memory
      ensures !ok ==> entries == old(entries) && tree == old(tree) && Repr == old(Repr)
      ensures ok ==> entries == old(entries)[k := v]
      ensures ok ==> tree == Dictionary(old(tree).children[k := TreeOf(v)])
      ensures ok ==> Repr == old(Repr) + Reach(v)
    {
      ok := memory;
      if ok {
        Put(k, v);
      }
    }

    method Put(k: string, v: Value)
      requires Valid() && (v.Sub? ==> v.dict.Valid() && this !in v.dict.Repr)
      modifies this
      ensures Valid() && entries == old(entries)[k := v] && Repr == old(Repr) + Reach(v)
      ensures tree == Dictionary(old(tree).children[k := TreeOf(v)])
    {
      entries, tree, Repr := entries[k := v], Dictionary(tree.children[k := TreeOf(v)]), Repr + Reach(v);
    }
  }

  ghost function Reach(v: Value): set<Dict>
    reads if v.Sub? then {v.dict} else {}
  {
    if v.Sub? then v.dict.Repr else {}
  }

  ghost function TreeOf(v: Value): Tree
    reads if v.Sub? then {v.dict} else {}
  {
    if v.Leaf? then Plain(v.value) else v.dict.tree
  }

  // ---------- merging in place ----------

  // A merge of s into t has done some of the keys.
  ghost predicate Merging(source: Dict, target: Dict, t: map<string, Tree>, s: map<string, Tree>, done: set<string>)
    reads source, source.Repr, target, target.Repr
  {
    && source.Valid() && target.Valid() && target !in source.Repr && source.tree == Dictionary(s)
    && done <= s.Keys && target.tree == Dictionary(MergedOn(t, s, done))
  }

  /** No sub-dictionary is reachable under two keys, here or further down. */
  ghost predicate Unshared(d: Dict)
    requires d.Valid()
    reads d, d.Repr
    decreases d.Repr
  {
    && (forall j, k :: j in d.entries && k in d.entries && j != k && d.entries[j].Sub? && d.entries[k].Sub? ==>
          d.entries[j].dict.Repr !! d.entries[k].dict.Repr)
    && (forall k :: k in d.entries && d.entries[k].Sub? ==> Unshared(d.entries[k].dict))
  }

  // home tells which objects were under each key to begin with: never the same under two.
  ghost predicate Apart(target: Dict, others: set<Dict>, home: map<string, set<Dict>>) {
    && target !in others
    && (forall k :: k in home ==> home[k] !! others && target !in home[k])
    && (forall j, k :: j in home && k in home && j != k ==> home[j] !! home[k])
  }

  // By now objects of the source may have joined them, but not under keys that are still open.
  ghost predicate Homes(target: Dict, others: set<Dict>, home: map<string, set<Dict>>, open: set<string>)
    requires target.Valid()
    reads target, target.Repr
  {
    && (forall k :: k in target.entries && target.entries[k].Sub? ==>
          k in home && target.entries[k].dict.Repr <= home[k] + others)
    && (forall k :: k in target.entries && target.entries[k].Sub? && k in open ==>
          target.entries[k].dict.Repr <= home[k] && Unshared(target.entries[k].dict))
  }

  // A key under which both have dictionaries: the target's own is changed.
  method MergeChild(d: Dict, target: Dict, k: string,
      luck: Luck, path: seq<string>, ghost others: set<Dict>, ghost home: map<string, set<Dict>>, ghost open: set<string>)
    returns (ok: bool)
    requires d.Valid() && d.Repr <= others && target.Valid() && Homes(target, others, home, open) && Apart(target, others, home)
    requires k in open && k in target.entries && target.entries[k].Sub?
    modifies target, home[k]
    ensures target.Valid() && Homes(target, others, home, open - {k})
    ensures target.Repr <= old(target.Repr) + d.Repr
    ensures ok == (Mergeable(old(target.entries[k].dict.tree), d.tree)
                   && AllSet(old(target.entries[k].dict.tree), d.tree, luck, path + [k]))
    ensures k in target.tree.children
    ensures target.tree == Dictionary(old(target.tree.children)[k := target.tree.children[k]])
    ensures ok ==> target.tree.children[k] == DeepMerge(old(target.tree.children[k]), d.tree)
    decreases d.Repr, 7
  {
    var child := target.entries[k].dict;
    ok := MergeInPlace(d, child, luck, path + [k]);
    assert target.ValidBut(k);
    target.Refresh(k);
  }

  method PutInPlace(target: Dict, k: string, v: Value, memory: bool,
      ghost others: set<Dict>, ghost home: map<string, set<Dict>>, ghost open: set<string>)
    returns (ok: bool)
    requires (v.Sub? ==> v.dict.Valid() && v.dict.Repr <= others)
    requires target.Valid() && Homes(target, others, home, open) && Apart(target, others, home) && k in home
    modifies target
    ensures target.Valid() && Homes(target, others, home, open - {k})
    ensures target.Repr <= old(target.Repr) + others
    ensures ok == memory
    ensures target.tree == if ok then Dictionary(old(target.tree).children[k := TreeOf(v)]) else old(target.tree)
  {
    ok := target.SetObject(k, v, memory);
  }

  method MergeKeyInPlace(source: Dict, target: Dict, k: string, luck: Luck, path: seq<string>,
      ghost home: map<string, set<Dict>>, ghost open: set<string>)
    returns (ok: bool)
    requires source.Valid() && target.Valid() && Homes(target, source.Repr, home, open) && Apart(target, source.Repr, home)
    requires k in source.entries && k in open && k in home
    modifies target, home[k]
    ensures source.Valid() && source.tree == old(source.tree) && source.Repr == old(source.Repr)
    ensures target.Valid() && Homes(target, source.Repr, home, open - {k})
    ensures target.Repr <= old(target.Repr) + source.Repr
    ensures ok == (MergeableAt(old(target.tree).children, source.tree.children, k)
                   && SetsAt(old(target.tree).children, source.tree.children, k, luck, path))
    ensures OneKey(old(target.tree).children, source.tree.children, k, target.tree.children, ok)
    decreases source.Repr, 3
  {
    var v := source.entries[k];
    if k in target.entries && target.entries[k].Sub? && v.Sub? {
      ok := MergeChild(v.dict, target, k, luck, path, source.Repr, home, open);
    } else {
      ok := PutInPlace(target, k, v, luck(path + [k]), source.Repr, home, open);
    }
  }

  // r is t after an attempt to merge s into it under one key.
  ghost predicate OneKey(t: map<string, Tree>, s: map<string, Tree>, k: string, r: map<string, Tree>, ok: bool)
    requires k in s
  {
    if ok then r == t[k := MergedAt(t, s, k)] else r == t || (k in r && r == t[k := r[k]])
  }

  lemma OneKeyMore(t: map<string, Tree>, s: map<string, Tree>, done: set<string>, now: map<string, Tree>, k: string,
      r: map<string, Tree>, ok: bool, luck: Luck, path: seq<string>)
    requires done <= s.Keys && k in s && k !in done && now == MergedOn(t, s, done) && OneKey(now, s, k, r, ok)
    ensures ok ==> r == MergedOn(t, s, done + {k})
    ensures r - s.Keys == t - s.Keys
    ensures MergeableAt(now, s, k) == MergeableAt(t, s, k)
    ensures SetsAt(now, s, k, luck, path) == SetsAt(t, s, k, luck, path)
  {
    MergedOnOneMore(t, s, done, k);
    Untouched(t, s, done, now);
    assert r - s.Keys == now - s.Keys;
  }

  ghost predicate MergingInPlace(source: Dict, target: Dict, t: map<string, Tree>, s: map<string, Tree>, done: set<string>,
      others: set<Dict>, home: map<string, set<Dict>>, open: set<string>, start: set<Dict>)
    reads source, source.Repr, target, target.Repr
  {
    && Merging(source, target, t, s, done) && Homes(target, others, home, open) && source.Repr == others
    && target in start && target.Repr <= start + others && (forall k :: k in home ==> home[k] <= start)
  }

  method MergeNextInPlace(source: Dict, target: Dict, k: string, luck: Luck, path: seq<string>,
      ghost t: map<string, Tree>, ghost s: map<string, Tree>,
      ghost done: set<string>, ghost good: set<string>, ghost home: map<string, set<Dict>>, ghost open: set<string>,
      ghost start: set<Dict>)
    returns (ok: bool)
    requires MergingInPlace(source, target, t, s, done, source.Repr, home, open, start)
    requires IsGood(t, s, luck, path, good)
    requires k in source.entries && k in open && k in home && k !in done && Apart(target, source.Repr, home)
    modifies start
    ensures ok ==> MergingInPlace(source, target, t, s, done + {k}, old(source.Repr), home, open - {k}, start)
    ensures source.Valid() && source.tree == Dictionary(s)
    ensures target.Valid() && target.Repr <= start + old(source.Repr)
    ensures ok <==> k in good
    ensures target.tree.children - s.Keys == t - s.Keys
    decreases source.Repr, 4
  {
    ghost var now := target.tree.children;
    ok := MergeKeyInPlace(source, target, k, luck, path, home, open);
    OneKeyMore(t, s, done, now, k, target.tree.children, ok, luck, path);
    GoodMeans(t, s, luck, path, good, k);
  }

  lemma Untouched(t: map<string, Tree>, s: map<string, Tree>, done: set<string>, now: map<string, Tree>)
    requires done <= s.Keys && now == MergedOn(t, s, done)
    ensures now - s.Keys == t - s.Keys
  {}

  lemma FreshHomes(target: Dict, others: set<Dict>, keys: set<string>) returns (home: map<string, set<Dict>>)
    requires target.Valid() && Unshared(target) && target.Repr !! others
    ensures Homes(target, others, home, keys) && Apart(target, others, home) && keys <= home.Keys
    ensures forall k :: k in home ==> home[k] <= target.Repr
  {
    home := map k | k in target.entries.Keys + keys ::
      if k in target.entries then Reach(target.entries[k]) else {};
  }

  method MergeKeysInPlace(source: Dict, target: Dict, luck: Luck, path: seq<string>,
      ghost t: map<string, Tree>, ghost s: map<string, Tree>, ghost good: set<string>)
    returns (ok: bool)
    requires Merging(source, target, t, s, {}) && IsGood(t, s, luck, path, good)
    requires target.Repr !! source.Repr && Unshared(target)
    modifies target.Repr
    ensures source.Valid() && source.tree == Dictionary(s)
    ensures target.Valid() && target.Repr <= old(target.Repr) + old(source.Repr)
    ensures ok <==> s != map[] && s.Keys <= good
    ensures ok ==> target.tree == Dictionary(MergedOn(t, s, s.Keys))
    ensures target.tree.children - s.Keys == t - s.Keys
    decreases source.Repr, 5
  {
    ghost var start, others := target.Repr, source.Repr;
    var keys := source.entries.Keys;
    ghost var home := FreshHomes(target, others, keys);
    ghost var done := {};
    ok := false;
    while keys != {}
      invariant MergingInPlace(source, target, t, s, done, others, home, keys, start)
      invariant keys == s.Keys - done && done <= good && (ok <==> done != {})
      decreases keys
    {
      var k :| k in keys;
      ok := MergeNextInPlace(source, target, k, luck, path, t, s, done, good, home, keys, start);
      keys := keys - {k};
      if !ok {
        return;
      }
      done := done + {k};
    }
    assert done == s.Keys;
    Untouched(t, s, done, target.tree.children);
  }

  /** MergeDictionaryIntoDictionary of IOUSBUserClient.c changes the dictionaries of the target
      themselves. As long as none of them is shared, neither among themselves nor with the source,
      it succeeds on the same terms and comes to the same result as merging on copies. */
  method MergeInPlace(source: Dict, target: Dict, luck: Luck, path: seq<string>) returns (ok: bool)
    requires source.Valid() && target.Valid() && target.Repr !! source.Repr && Unshared(target)
    modifies target.Repr
    ensures source.Valid() && target.Valid() && target.Repr <= old(target.Repr) + source.Repr
    ensures ok <==> Mergeable(old(target.tree), source.tree) && AllSet(old(target.tree), source.tree, luck, path)
    ensures ok ==> target.tree == DeepMerge(old(target.tree), source.tree)
    ensures target.tree.children - source.tree.children.Keys == old(target.tree).children - source.tree.children.Keys
    decreases source.Repr, 6
  {
    ghost var t, s := target.tree.children, source.tree.children;
    MergedOnAll(t, s);
    assert t == MergedOn(t, s, {});
    AllGood(t, s, luck, path, Good(t, s, luck, path));
    ok := MergeKeysInPlace(source, target, luck, path, t, s, Good(t, s, luck, path));
  }
}
