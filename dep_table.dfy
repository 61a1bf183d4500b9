/** The name -> optional-version dictionaries every part of the dependency
    inference passes around, and the "keep the first non-null version" rule by
    which all of them are filled: `_add_dependencies` of the parsers' base class,
    `add_pip_dependency`/`add_apt_dependency` and `__merge_dict` of
    `Dependencies`, and `_merge_dict` of `ExtraDependencies`.

    A Python dict keeps its keys in insertion order, so it is modelled as a
    sequence of (name, version) entries; assigning to an existing key keeps its
    place, assigning to a new key appends it. */
module DepTable {
  import opened Wrappers

  type Entry = (string, Option<string>)
  type Table = seq<Entry>

  /** Each name occurs once: the dict invariant. */
  predicate NoDupKeys(t: Table) {
    forall i, j :: 0 <= i < j < |t| ==> t[i].0 != t[j].0
  }

  /** The names in iteration order. */
  function Names(t: Table): seq<string> {
    seq(|t|, i requires 0 <= i < |t| => t[i].0)
  }

  function Keys(t: Table): set<string> {
    set i | 0 <= i < |t| :: t[i].0
  }

  /** Position of the first entry for name, or -1. */
  function IndexOf(t: Table, name: string): (i: int)
    ensures -1 <= i < |t|
    ensures i >= 0 ==> t[i].0 == name
    ensures forall k :: 0 <= k < |t| && (i < 0 || k < i) ==> t[k].0 != name
    ensures i >= 0 <==> name in Keys(t)
  {
    if t == [] then -1
    else if t[0].0 == name then 0
    else
      var j := IndexOf(t[1..], name);
      assert forall k :: 1 <= k < |t| ==> t[k] == t[1..][k - 1];
      assert name in Keys(t[1..]) <==> name in Keys(t) by {
        if name in Keys(t) {
          var k :| 0 <= k < |t| && t[k].0 == name;
          assert t[1..][k - 1].0 == name;
        }
      }
      if j < 0 then -1 else j + 1
  }

  /** dict.get, one level up: None when the name is absent, Some(version) otherwise. */
  function Get(t: Table, name: string): Option<Option<string>> {
    var i := IndexOf(t, name);
    if i < 0 then None else Some(t[i].1)
  }

  /** The first entry for name is at position i. */
  lemma IndexOfIs(t: Table, name: string, i: int)
    requires 0 <= i < |t| && t[i].0 == name
    requires forall k :: 0 <= k < i ==> t[k].0 != name
    ensures IndexOf(t, name) == i
  {
  }

  /** Looking a name up after one more entry was appended. */
  lemma GetAppend(t: Table, e: Entry, name: string)
    ensures Get(t + [e], name) ==
      if name in Keys(t) then Get(t, name) else if e.0 == name then Some(e.1) else None
  {
    var t' := t + [e];
    var i := IndexOf(t, name);
    if i >= 0 {
      IndexOfIs(t', name, i);
    } else if e.0 == name {
      IndexOfIs(t', name, |t|);
    } else {
      assert name !in Keys(t');
    }
  }

  lemma KeysAppend(a: Table, b: Table)
    ensures Keys(a + b) == Keys(a) + Keys(b)
  {
    assert forall k :: 0 <= k < |a| ==> (a + b)[k] == a[k];
    assert forall k :: 0 <= k < |b| ==> (a + b)[|a| + k] == b[k];
  }

  lemma NoDupAppend(a: Table, e: Entry)
    ensures NoDupKeys(a + [e]) <==> NoDupKeys(a) && e.0 !in Keys(a)
  {
    var t := a + [e];
    assert forall k :: 0 <= k < |a| ==> t[k] == a[k];
    if e.0 in Keys(a) {
      var k :| 0 <= k < |a| && a[k].0 == e.0;
      assert t[k].0 == t[|a|].0;
    }
  }

  /** len(d): a dict has as many entries as keys. */
  lemma {:induction false} KeysCardinality(t: Table)
    requires NoDupKeys(t)
    ensures |Keys(t)| == |t|
    decreases |t|
  {
    if t != [] {
      var n := |t| - 1;
      var p := t[..n];
      assert t == p + [t[n]];
      NoDupAppend(p, t[n]);
      KeysAppend(p, [t[n]]);
      assert Keys([t[n]]) == {t[n].0};
      KeysCardinality(p);
    }
  }

  /** The keep-first rule on two lookups: a later lookup y wins unless it is
      absent or the earlier x already holds a version. */
  function KeepFirst(x: Option<Option<string>>, y: Option<Option<string>>): Option<Option<string>> {
    if y.None? then x else if x.Some? && x.value.Some? then x else y
  }

  /** `if name not in d or d[name] is None: d[name] = version` */
  function Put(t: Table, name: string, version: Option<string>): (r: Table)
    ensures Keys(r) == Keys(t) + {name}
    ensures Get(r, name) == KeepFirst(Get(t, name), Some(version))
    ensures forall k :: k != name ==> Get(r, k) == Get(t, k)
    ensures Names(r) == if name in Keys(t) then Names(t) else Names(t) + [name]
    ensures name !in Keys(t) ==> r == t + [(name, version)]
    ensures NoDupKeys(t) ==> NoDupKeys(r)
  {
    var i := IndexOf(t, name);
    if i < 0 then
      var r := t + [(name, version)];
      KeysAppend(t, [(name, version)]);
      GetAppendAll(t, (name, version));
      r
    else if t[i].1.None? then
      var r := t[i := (name, version)];
      SameNamesReplaced(t, i, version);
      r
    else
      t
  }

  /** Replacing the version of an entry keeps every name at its place. */
  lemma SameNamesReplaced(t: Table, i: nat, version: Option<string>)
    requires i < |t|
    ensures var r := t[i := (t[i].0, version)];
      Names(r) == Names(t) && Keys(r) == Keys(t) && forall k :: IndexOf(r, k) == IndexOf(t, k)
  {
    var r := t[i := (t[i].0, version)];
    assert Names(r) == Names(t);
    assert Keys(r) == Keys(t) by {
      assert forall k :: 0 <= k < |t| ==> r[k].0 == t[k].0;
    }
    forall k ensures IndexOf(r, k) == IndexOf(t, k) {
      var j := IndexOf(t, k);
      if j >= 0 { IndexOfIs(r, k, j); }
    }
  }

  lemma GetAppendAll(t: Table, e: Entry)
    ensures forall k :: Get(t + [e], k) ==
                        (if k in Keys(t) then Get(t, k) else if e.0 == k then Some(e.1) else None)
  {
    forall k { GetAppend(t, e, k); }
  }

  /** `__merge_dict(base, addition)` / `_merge_dict(base, addition)`: every entry of
      addition, in order, put into base with the keep-first rule. */
  function MergeTables(base: Table, addition: Table): (r: Table)
    ensures Keys(r) == Keys(base) + Keys(addition)
    ensures NoDupKeys(base) ==> NoDupKeys(r)
  {
    if addition == [] then base
    else
      var n := |addition| - 1;
      assert addition == addition[..n] + [addition[n]];
      KeysAppend(addition[..n], [addition[n]]);
      Put(MergeTables(base, addition[..n]), addition[n].0, addition[n].1)
  }

  /** After a merge, each name holds the base's version if that is not null, and
      the addition's otherwise. */
  lemma {:induction false} MergeTablesGet(base: Table, addition: Table, name: string)
    requires NoDupKeys(addition)
    ensures Get(MergeTables(base, addition), name) == KeepFirst(Get(base, name), Get(addition, name))
    decreases |addition|
  {
    if addition != [] {
      var n := |addition| - 1;
      var p := addition[..n];
      assert addition == p + [addition[n]];
      MergeTablesGet(base, p, name);
      GetAppend(p, addition[n], name);
      if addition[n].0 == name {
        assert name !in Keys(p);
      }
    }
  }

  /** Merging names the base does not have appends them in order. */
  lemma {:induction false} MergeTablesDisjoint(base: Table, addition: Table)
    requires NoDupKeys(addition) && Keys(base) !! Keys(addition)
    ensures MergeTables(base, addition) == base + addition
    decreases |addition|
  {
    if addition != [] {
      var n := |addition| - 1;
      var p := addition[..n];
      var e := addition[n];
      assert addition == p + [e];
      KeysAppend(p, [e]);
      MergeTablesDisjoint(base, p);
      KeysAppend(base, p);
      assert e.0 !in Keys(p);
      assert (e.0, e.1) == e;
      assert base + p + [e] == base + addition;
    }
  }

  /** Merging a dict into an empty one copies it. */
  lemma MergeIntoEmpty(addition: Table)
    requires NoDupKeys(addition)
    ensures MergeTables([], addition) == addition
  {
    MergeTablesDisjoint([], addition);
  }

  /** The loop of `__merge_dict`, which updates base in place. */
  method MergeInto(base: Table, addition: Table) returns (merged: Table)
    ensures merged == MergeTables(base, addition)
  {
    merged := base;
    for i := 0 to |addition|
      invariant merged == MergeTables(base, addition[..i])
    {
      var name, version := addition[i].0, addition[i].1;
      assert addition[..i + 1][..i] == addition[..i];
      merged := Put(merged, name, version);
    }
    assert addition[..|addition|] == addition;
  }

  /** `d.pop(name, None)`: the table without the entry for name. */
  function Remove(t: Table, name: string): (r: Table)
    ensures Keys(r) == Keys(t) - {name}
    ensures name !in Keys(t) ==> r == t
    ensures forall i :: 0 <= i < |r| ==> r[i] in t
  {
    if t == [] then []
    else
      var n := |t| - 1;
      var p := t[..n];
      var r' := Remove(p, name);
      assert t == p + [t[n]];
      KeysAppend(p, [t[n]]);
      KeysAppend(r', [t[n]]);
      if t[n].0 == name then r' else r' + [t[n]]
  }

  /** On a dict, pop takes out the one entry for name and keeps the others in
      their order. */
  lemma {:induction false} RemoveSplice(t: Table, name: string)
    requires NoDupKeys(t) && name in Keys(t)
    ensures var i := IndexOf(t, name); Remove(t, name) == t[..i] + t[i + 1..]
  {
    var i := IndexOf(t, name);
    var pre, post := t[..i], t[i + 1..];
    assert t == pre + [t[i]] + post;
    assert forall k :: 0 <= k < |pre| ==> pre[k].0 != name by {
      forall k | 0 <= k < |pre| ensures pre[k].0 != name {
        assert pre[k] == t[k];
      }
    }
    assert forall k :: 0 <= k < |post| ==> post[k].0 != name by {
      forall k | 0 <= k < |post| ensures post[k].0 != name {
        assert post[k] == t[i + 1 + k];
      }
    }
    RemoveAppend(pre + [t[i]], post, name);
    RemoveAppend(pre, [t[i]], name);
    assert Remove([t[i]], name) == [];
  }

  /** pop works entry by entry: removing from a concatenation removes from
      each part. */
  lemma {:induction false} RemoveAppend(a: Table, b: Table, name: string)
    ensures Remove(a + b, name) == Remove(a, name) + Remove(b, name)
    decreases |b|
  {
    if b == [] {
      assert a + b == a;
    } else {
      var m := |b| - 1;
      assert (a + b)[..|a + b| - 1] == a + b[..m];
      assert (a + b)[|a + b| - 1] == b[m];
      RemoveAppend(a, b[..m], name);
    }
  }

  /** pop leaves every other name's entry as it was. */
  lemma {:induction false} RemoveGet(t: Table, name: string, k: string)
    requires k != name
    ensures Get(Remove(t, name), k) == Get(t, k)
    decreases |t|
  {
    if t != [] {
      var n := |t| - 1;
      var p := t[..n];
      assert t == p + [t[n]];
      RemoveGet(p, name, k);
      GetAppend(p, t[n], k);
      if t[n].0 != name {
        GetAppend(Remove(p, name), t[n], k);
      }
    }
  }

  /** pop on a dict removes at most one entry and keeps the dict invariant. */
  lemma {:induction false} RemoveSize(t: Table, name: string)
    ensures NoDupKeys(t) ==> NoDupKeys(Remove(t, name))
    ensures NoDupKeys(t) ==> |Remove(t, name)| == if name in Keys(t) then |t| - 1 else |t|
    decreases |t|
  {
    if t != [] && NoDupKeys(t) {
      var n := |t| - 1;
      var p := t[..n];
      assert t == p + [t[n]];
      KeysAppend(p, [t[n]]);
      NoDupAppend(p, t[n]);
      RemoveSize(p, name);
      if t[n].0 != name {
        NoDupAppend(Remove(p, name), t[n]);
      }
    }
  }

  /** Several dicts merged one after the other into an initially empty one. */
  function MergeAll(ts: seq<Table>): (r: Table)
    ensures NoDupKeys(r)
    ensures forall k :: k in Keys(r) <==> exists i :: 0 <= i < |ts| && k in Keys(ts[i])
  {
    if ts == [] then []
    else
      var n := |ts| - 1;
      var r' := MergeAll(ts[..n]);
      KeysOfSnoc(ts);
      MergeTables(r', ts[n])
  }

  /** A name is in one of the dicts exactly when it is in one of all but the
      last, or in the last. */
  lemma KeysOfSnoc(ts: seq<Table>)
    requires ts != []
    ensures var n := |ts| - 1;
      forall k :: (exists i :: 0 <= i < |ts| && k in Keys(ts[i])) <==>
                  (exists i :: 0 <= i < n && k in Keys(ts[..n][i])) || k in Keys(ts[n])
  {
    var n := |ts| - 1;
    forall k
      ensures (exists i :: 0 <= i < |ts| && k in Keys(ts[i])) <==>
              (exists i :: 0 <= i < n && k in Keys(ts[..n][i])) || k in Keys(ts[n])
    {
      if exists i :: 0 <= i < |ts| && k in Keys(ts[i]) {
        var i :| 0 <= i < |ts| && k in Keys(ts[i]);
        if i < n {
          assert ts[..n][i] == ts[i];
        }
      }
      if exists i :: 0 <= i < n && k in Keys(ts[..n][i]) {
        var i :| 0 <= i < n && k in Keys(ts[..n][i]);
        assert ts[..n][i] == ts[i];
      }
    }
  }

  /** One more dict merged into those before it. */
  lemma MergeAllStep(ts: seq<Table>, i: nat)
    requires i < |ts|
    ensures MergeAll(ts[..i + 1]) == MergeTables(MergeAll(ts[..i]), ts[i])
  {
    assert ts[..i + 1][..i] == ts[..i];
  }

  /** Merging a single dict into an empty one reproduces it. */
  lemma MergeAllSingle(t: Table)
    requires NoDupKeys(t)
    ensures MergeAll([t]) == t
  {
    assert [t][..0] == [];
    MergeIntoEmpty(t);
  }

  predicate HasVersion(x: Option<Option<string>>) { x.Some? && x.value.Some? }

  /** The version a name ends up with when dicts are merged one after the other,
      read front to back: the first non-null version; else null if some dict
      has the name; else absent. */
  function FirstVersion(ts: seq<Table>, name: string): Option<Option<string>> {
    if ts == [] then None
    else
      var rest := FirstVersion(ts[1..], name);
      match Get(ts[0], name)
      case Some(Some(v)) => Some(Some(v))
      case Some(None) => if HasVersion(rest) then rest else Some(None)
      case None => rest
  }

  /** The first dict holding a non-null version for name decides. */
  lemma {:induction false} FirstVersionIs(ts: seq<Table>, name: string, i: nat, v: string)
    requires i < |ts| && Get(ts[i], name) == Some(Some(v))
    requires forall j :: 0 <= j < i ==> !HasVersion(Get(ts[j], name))
    ensures FirstVersion(ts, name) == Some(Some(v))
    decreases i
  {
    if i > 0 {
      assert forall j :: 0 <= j < i - 1 ==> ts[1..][j] == ts[j + 1];
      FirstVersionIs(ts[1..], name, i - 1, v);
    }
  }

  /** Read back to front, the same version is the keep-first rule applied dict by dict. */
  lemma {:induction false} FirstVersionSnoc(ts: seq<Table>, name: string)
    requires ts != []
    ensures FirstVersion(ts, name) == KeepFirst(FirstVersion(ts[..|ts| - 1], name), Get(ts[|ts| - 1], name))
    decreases |ts|
  {
    var n := |ts| - 1;
    if n > 0 {
      FirstVersionSnoc(ts[1..], name);
      assert ts[1..][..n - 1] == ts[..n][1..];
      assert ts[..n][0] == ts[0];
    }
  }

  /** Merging dicts one after the other gives every name its first version. */
  lemma {:induction false} MergeAllGet(ts: seq<Table>, name: string)
    requires forall i :: 0 <= i < |ts| ==> NoDupKeys(ts[i])
    ensures Get(MergeAll(ts), name) == FirstVersion(ts, name)
    decreases |ts|
  {
    if ts != [] {
      var n := |ts| - 1;
      MergeAllGet(ts[..n], name);
      MergeTablesGet(MergeAll(ts[..n]), ts[n], name);
      FirstVersionSnoc(ts, name);
    }
  }

  /** `d[name] = version`: overwrites the entry in place, or appends a new one. */
  function Assign(t: Table, name: string, version: Option<string>): (r: Table)
    ensures Get(r, name) == Some(version)
    ensures forall k :: k != name ==> Get(r, k) == Get(t, k)
    ensures Names(r) == if name in Keys(t) then Names(t) else Names(t) + [name]
  {
    var i := IndexOf(t, name);
    if i < 0 then
      GetAppendAll(t, (name, version));
      t + [(name, version)]
    else
      var r := t[i := (name, version)];
      assert Names(r) == Names(t);
      assert forall k :: IndexOf(r, k) == IndexOf(t, k) || k == name by {
        forall k | k != name ensures IndexOf(r, k) == IndexOf(t, k) {
          var j := IndexOf(t, k);
          if j >= 0 { IndexOfIs(r, k, j); }
        }
      }
      IndexOfIs(r, name, i);
      r
  }

  /** The version a name gets when entries are put one after the other into an
      empty dict with the keep-first rule, read front to back: the version of the
      first entry for name that has one; else null if some entry has the name;
      else absent. */
  function FirstEntryVersion(es: Table, name: string): Option<Option<string>> {
    if es == [] then None
    else
      var rest := FirstEntryVersion(es[1..], name);
      if es[0].0 != name then rest
      else if es[0].1.Some? then Some(es[0].1)
      else if HasVersion(rest) then rest
      else Some(None)
  }

  lemma {:induction false} FirstEntryVersionSnoc(es: Table, e: Entry, name: string)
    ensures FirstEntryVersion(es + [e], name) ==
      if e.0 == name then KeepFirst(FirstEntryVersion(es, name), Some(e.1)) else FirstEntryVersion(es, name)
    decreases |es|
  {
    if es != [] {
      assert (es + [e])[1..] == es[1..] + [e];
      FirstEntryVersionSnoc(es[1..], e, name);
    } else {
      assert ([] + [e])[1..] == [];
    }
  }

  /** Putting entries one by one into an empty dict: a repeated name keeps the
      first non-null version it was given. */
  lemma {:induction false} PutAllGet(es: Table, name: string)
    ensures Get(MergeTables([], es), name) == FirstEntryVersion(es, name)
    decreases |es|
  {
    if es != [] {
      var n := |es| - 1;
      assert es == es[..n] + [es[n]];
      PutAllGet(es[..n], name);
      FirstEntryVersionSnoc(es[..n], es[n], name);
    }
  }

  /** The keep-first insert written as the source writes it: assign unless the
      name already holds a non-null version. */
  lemma PutByAssign(t: Table, name: string, version: Option<string>)
    ensures Put(t, name, version) == if HasVersion(Get(t, name)) then t else Assign(t, name, version)
  {
  }
}
