/** The client's immutable snapshots of client/view.go and their groups of client/group.go:
    the sorted index, the exact diff and the wire form. */
module Views {
  import opened Text
  import opened Order

  datatype Config = Config(key: string, value: string, format: string)

  /** One full fetch, as a source returns it. */
  datatype Snapshot = Snapshot(revision: int, configs: seq<Config>)

  datatype View = View(revision: int, byKey: map<string, Config>, keys: seq<string>)

  const EMPTY_VIEW := View(-1, map[], [])

  // ---------------------------------------------------------------- building a view

  function KeysOf(configs: seq<Config>): (ks: seq<string>)
    ensures |ks| == |configs| && forall i :: 0 <= i < |ks| ==> ks[i] == configs[i].key
  {
    seq(|configs|, i requires 0 <= i < |configs| => configs[i].key)
  }

  /** Later entries of a key override earlier ones. */
  function Index(configs: seq<Config>): (m: map<string, Config>)
    ensures forall k :: k in m <==> k in KeysOf(configs)
    ensures forall k :: k in m ==> m[k].key == k && m[k] in configs
  {
    if configs == [] then map[]
    else
      var last := configs[|configs| - 1];
      var before := Index(configs[..|configs| - 1]);
      assert KeysOf(configs) == KeysOf(configs[..|configs| - 1]) + [last.key];
      before[last.key := last]
  }

  /** An entry of the index is the last one of its key. */
  lemma {:induction false} IndexIsLast(configs: seq<Config>, i: nat)
    requires i < |configs| && forall j :: i < j < |configs| ==> configs[j].key != configs[i].key
    ensures configs[i].key in Index(configs) && Index(configs)[configs[i].key] == configs[i]
  {
    if i < |configs| - 1 {
      IndexIsLast(configs[..|configs| - 1], i);
    }
  }

  /** v is the view of s: the index of its entries and their keys in order. */
  ghost predicate IsViewOf(v: View, s: Snapshot) {
    && v.revision == s.revision
    && v.byKey == Index(s.configs)
    && Sorted(v.keys) && multiset(v.keys) == multiset(KeysOf(s.configs))
  }

  /** What every view satisfies, with or without duplicate keys. */
  ghost predicate WellFormed(v: View) {
    && Sorted(v.keys)
    && (forall k :: k in v.byKey <==> k in v.keys)
    && (forall k :: k in v.byKey ==> v.byKey[k].key == k)
  }

  lemma ViewsAreWellFormed(v: View, s: Snapshot)
    requires IsViewOf(v, s)
    ensures WellFormed(v)
    ensures NoDuplicates(KeysOf(s.configs)) ==> StrictlySorted(v.keys)
  {
    SameMembers(v.keys, KeysOf(s.configs));
    if NoDuplicates(KeysOf(s.configs)) {
      UniqueByMultiset(KeysOf(s.configs), v.keys);
      StrictIfUnique(v.keys);
    }
  }

  method NewView(s: Snapshot) returns (v: View)
    ensures IsViewOf(v, s) && WellFormed(v)
  {
    var byKey: map<string, Config>, keys: seq<string> := map[], [];
    for i := 0 to |s.configs|
      invariant byKey == Index(s.configs[..i]) && keys == KeysOf(s.configs[..i])
    {
      assert s.configs[..i + 1][..i] == s.configs[..i];
      byKey := byKey[s.configs[i].key := s.configs[i]];
      keys := keys + [s.configs[i].key];
    }
    assert s.configs[..|s.configs|] == s.configs;
    var sorted := Sort(keys);
    v := View(s.revision, byKey, sorted);
    ViewsAreWellFormed(v, s);
  }

  // ---------------------------------------------------------------- the prefix index

  /** strings.Compare. */
  function Compare(a: string, b: string): int { if a == b then 0 else if Less(a, b) then -1 else 1 }

  /** Reports a key carrying the prefix as less than it. */
  function PastPrefix(k: string, p: string): int { if HasPrefix(k, p) then -1 else Compare(k, p) }

  /** slices.BinarySearchFunc: the first position whose key does not compare less. */
  method BinarySearchFunc(keys: seq<string>, target: string, cmp: (string, string) -> int) returns (pos: nat)
    requires forall i, j :: 0 <= i < j < |keys| && cmp(keys[j], target) < 0 ==> cmp(keys[i], target) < 0
    ensures pos <= |keys|
    ensures forall i :: 0 <= i < |keys| ==> (i < pos <==> cmp(keys[i], target) < 0)
  {
    var i, j := 0, |keys|;
    while i < j
      invariant 0 <= i <= j <= |keys|
      invariant forall k :: 0 <= k < i ==> cmp(keys[k], target) < 0
      invariant forall k :: j <= k < |keys| ==> !(cmp(keys[k], target) < 0)
    {
      var h := (i + j) / 2;
      if cmp(keys[h], target) < 0 {
        i := h + 1;
      } else {
        j := h;
      }
    }
    pos := i;
  }

  lemma {:induction false} PrefixedNotLess(k: string, p: string)
    requires HasPrefix(k, p)
    ensures Leq(p, k)
  {
    if p != "" {
      assert HasPrefix(k[1..], p[1..]);
      PrefixedNotLess(k[1..], p[1..]);
    }
  }

  /** Nothing not greater than a prefixed key lies beyond the prefixed keys. */
  lemma {:induction false} BelowPrefixed(x: string, y: string, p: string)
    requires Leq(x, y) && HasPrefix(y, p)
    ensures HasPrefix(x, p) || Less(x, p)
  {
    if p != "" && x != "" && x[0] == y[0] {
      assert HasPrefix(y[1..], p[1..]);
      BelowPrefixed(x[1..], y[1..], p[1..]);
      assert HasPrefix(x[1..], p[1..]) ==> x[..|p|] == [x[0]] + x[1..][..|p| - 1];
    }
  }

  /** Both comparators are monotone along sorted keys. */
  lemma ComparatorsMonotone(keys: seq<string>, p: string)
    requires Sorted(keys)
    ensures forall i, j :: 0 <= i < j < |keys| && Compare(keys[j], p) < 0 ==> Compare(keys[i], p) < 0
    ensures forall i, j :: 0 <= i < j < |keys| && PastPrefix(keys[j], p) < 0 ==> PastPrefix(keys[i], p) < 0
  {
    LessIrreflexive(p);
    forall i, j | 0 <= i < j < |keys|
      ensures Compare(keys[j], p) < 0 ==> Compare(keys[i], p) < 0
      ensures PastPrefix(keys[j], p) < 0 ==> PastPrefix(keys[i], p) < 0
    {
      if Less(keys[j], p) {
        LeqLess(keys[i], keys[j], p);
      } else if HasPrefix(keys[j], p) {
        BelowPrefixed(keys[i], keys[j], p);
      }
    }
  }

  /** The half-open range holding exactly the keys with the prefix. */
  method PrefixRange(v: View, prefix: string) returns (lo: nat, hi: nat)
    requires Sorted(v.keys)
    ensures lo <= hi <= |v.keys|
    ensures forall i :: 0 <= i < |v.keys| ==> (lo <= i < hi <==> HasPrefix(v.keys[i], prefix))
  {
    ComparatorsMonotone(v.keys, prefix);
    lo := BinarySearchFunc(v.keys, prefix, Compare);
    hi := BinarySearchFunc(v.keys, prefix, PastPrefix);
    LessIrreflexive(prefix);
    forall i | 0 <= i < |v.keys|
      ensures lo <= i < hi <==> HasPrefix(v.keys[i], prefix)
    {
      if HasPrefix(v.keys[i], prefix) {
        PrefixedNotLess(v.keys[i], prefix);
      }
    }
    if hi < |v.keys| {
      assert Compare(v.keys[hi], prefix) >= 0;
    }
  }

  // ---------------------------------------------------------------- groups

  datatype Group = Group(prefix: string, snap: View)

  /** The full keys of a group. */
  ghost function Members(g: Group): set<string> {
    set k | k in g.snap.byKey && HasPrefix(k, g.prefix)
  }

  function Raw(g: Group, key: string): (r: (string, bool))
    ensures r.1 <==> g.prefix + key in Members(g)
    ensures r.1 ==> r.0 == g.snap.byKey[g.prefix + key].value
  {
    if g.prefix + key in g.snap.byKey then (g.snap.byKey[g.prefix + key].value, true) else ("", false)
  }

  /** Sorted relative keys: every one resolves through Raw, and every member is listed. */
  method GroupKeys(g: Group) returns (out: seq<string>)
    requires WellFormed(g.snap)
    ensures forall k :: k in out ==> Raw(g, k).1
    ensures forall k: string :: k in out <==> g.prefix + k in Members(g)
    ensures Sorted(out) && (NoDuplicates(g.snap.keys) ==> NoDuplicates(out))
  {
    var lo, hi := PrefixRange(g.snap, g.prefix);
    out := [];
    for i := lo to hi
      invariant |out| == i - lo
      invariant forall k :: 0 <= k < |out| ==> g.prefix + out[k] == g.snap.keys[lo + k]
    {
      out := out + [TrimPrefix(g.snap.keys[i], g.prefix)];
    }
    forall k: string | g.prefix + k in Members(g) ensures k in out {
      var i :| 0 <= i < |g.snap.keys| && g.snap.keys[i] == g.prefix + k;
      assert g.prefix + out[i - lo] == g.prefix + k;
      assert out[i - lo] == (g.prefix + out[i - lo])[|g.prefix|..] == (g.prefix + k)[|g.prefix|..] == k;
    }
    forall i, j | 0 <= i < j < |out|
      ensures Leq(out[i], out[j])
      ensures NoDuplicates(g.snap.keys) ==> out[i] != out[j]
    {
      assert Leq(g.prefix + out[i], g.prefix + out[j]);
      CommonPrefixOrder(g.prefix, out[j], out[i]);
    }
  }

  lemma {:induction false} CommonPrefixOrder(p: string, a: string, b: string)
    ensures Less(p + a, p + b) <==> Less(a, b)
  {
    if p == "" {
      assert p + a == a && p + b == b;
    } else {
      assert (p + a)[1..] == p[1..] + a && (p + b)[1..] == p[1..] + b;
      CommonPrefixOrder(p[1..], a, b);
    }
  }

  /** Len counts the members exactly when no key under the prefix occurs twice. */
  method GroupLen(g: Group) returns (n: nat)
    requires WellFormed(g.snap)
    ensures n >= |Members(g)|
    ensures n == |Members(g)| <==>
            forall i, j :: 0 <= i < j < |g.snap.keys| && HasPrefix(g.snap.keys[i], g.prefix) ==>
                             g.snap.keys[i] != g.snap.keys[j]
  {
    var lo, hi := PrefixRange(g.snap, g.prefix);
    n := hi - lo;
    ghost var run := g.snap.keys[lo..hi];
    assert (set k | k in run) == Members(g) by {
      forall k ensures k in run <==> k in Members(g) {
        if k in Members(g) {
          var i :| 0 <= i < |g.snap.keys| && g.snap.keys[i] == k;
          assert run[i - lo] == k;
        }
      }
    }
    DistinctCount(run);
    if NoDuplicates(run) {
      forall i, j | 0 <= i < j < |g.snap.keys| && HasPrefix(g.snap.keys[i], g.prefix)
        ensures g.snap.keys[i] != g.snap.keys[j]
      {
        if lo <= j < hi {
          assert run[i - lo] != run[j - lo];
        }
      }
    }
  }

  lemma {:induction false} DistinctCount(s: seq<string>)
    ensures |(set k | k in s)| <= |s|
    ensures |(set k | k in s)| == |s| <==> NoDuplicates(s)
  {
    var elems := set k | k in s;
    if s == [] {
      assert elems == {};
    } else {
      var rest := set k | k in s[1..];
      DistinctCount(s[1..]);
      assert elems == rest + {s[0]};
      if s[0] in rest {
        assert elems == rest;
        var i :| 0 <= i < |s[1..]| && s[1..][i] == s[0];
        assert s[0] == s[i + 1];
      } else {
        assert |elems| == |rest| + 1;
        assert forall i :: 0 < i < |s| ==> s[i] == s[1..][i - 1];
        if NoDuplicates(s[1..]) {
          assert NoDuplicates(s);
        }
        if NoDuplicates(s) {
          forall i, j | 0 <= i < j < |s[1..]| ensures s[1..][i] != s[1..][j] {
            assert s[i + 1] != s[j + 1];
          }
        }
      }
    }
  }

  // ---------------------------------------------------------------- diff

  /** A key was added, removed, or given another value or format. */
  ghost predicate Changed(old_: View, new_: View, k: string) {
    || (k in old_.byKey) != (k in new_.byKey)
    || (k in old_.byKey && k in new_.byKey &&
        (old_.byKey[k].value != new_.byKey[k].value || old_.byKey[k].format != new_.byKey[k].format))
  }

  /** Exactly the changed keys, sorted and without duplicates, whatever the order in which
      the two maps are walked. */
  method Diff(old_: View, new_: View) returns (changed: seq<string>)
    ensures StrictlySorted(changed)
    ensures forall k: string :: k in changed <==> Changed(old_, new_, k)
  {
    var found: seq<string> := [];
    var rest := new_.byKey.Keys;
    while rest != {}
      invariant rest <= new_.byKey.Keys && NoDuplicates(found)
      invariant forall k: string :: k in found <==> k in new_.byKey && k !in rest && Changed(old_, new_, k)
      decreases rest
    {
      var k :| k in rest;
      rest := rest - {k};
      if k !in old_.byKey || old_.byKey[k].value != new_.byKey[k].value || old_.byKey[k].format != new_.byKey[k].format {
        found := found + [k];
      }
    }
    rest := old_.byKey.Keys;
    while rest != {}
      invariant rest <= old_.byKey.Keys && NoDuplicates(found)
      invariant forall k: string :: k in found <==> Changed(old_, new_, k) && (k in new_.byKey || k !in rest)
      decreases rest
    {
      var k :| k in rest;
      rest := rest - {k};
      if k !in new_.byKey {
        found := found + [k];
      }
    }
    changed := Sort(found);
    SameMembers(changed, found);
    UniqueByMultiset(found, changed);
    StrictIfUnique(changed);
  }

  /** No key changed exactly when both views hold the same entries. */
  lemma NothingChanged(old_: View, new_: View)
    requires WellFormed(old_) && WellFormed(new_)
    ensures (forall k: string :: !Changed(old_, new_, k)) <==> old_.byKey == new_.byKey
  {
    if forall k: string :: !Changed(old_, new_, k) {
      forall k ensures k in old_.byKey <==> k in new_.byKey {
        assert !Changed(old_, new_, k);
      }
      forall k | k in old_.byKey ensures old_.byKey[k] == new_.byKey[k] {
        assert !Changed(old_, new_, k);
      }
    }
  }

  // ---------------------------------------------------------------- the wire form

  ghost predicate IsWireOf(s: Snapshot, v: View) {
    && s.revision == v.revision
    && |s.configs| == |v.keys|
    && forall i :: 0 <= i < |v.keys| ==> v.keys[i] in v.byKey && s.configs[i] == v.byKey[v.keys[i]]
  }

  method ToWire(v: View) returns (s: Snapshot)
    requires WellFormed(v)
    ensures IsWireOf(s, v)
  {
    var configs := [];
    for i := 0 to |v.keys|
      invariant |configs| == i
      invariant forall j :: 0 <= j < i ==> v.keys[j] in v.byKey && configs[j] == v.byKey[v.keys[j]]
    {
      configs := configs + [v.byKey[v.keys[i]]];
    }
    s := Snapshot(v.revision, configs);
  }

  lemma IndexAgrees(configs: seq<Config>, m: map<string, Config>, k: string)
    requires forall i :: 0 <= i < |configs| ==> configs[i].key in m && configs[i] == m[configs[i].key]
    requires k in Index(configs)
    ensures k in m && Index(configs)[k] == m[k]
  {
    var c := Index(configs)[k];
    assert c in configs && c.key == k;
  }

  /** Writing a view out and reading it back yields the same entries, and the very same
      view if its keys are unique. */
  lemma WireRoundTrip(v: View, s: Snapshot, back: View)
    requires WellFormed(v) && IsWireOf(s, v) && IsViewOf(back, s)
    ensures back.byKey == v.byKey && back.revision == v.revision
    ensures NoDuplicates(v.keys) ==> back == v
  {
    WireEntries(v, s, back);
    if NoDuplicates(v.keys) {
      hide Index;
      StrictIfUnique(v.keys);
      ViewsAreWellFormed(back, s);
      SameMembers(back.keys, v.keys);
      StrictlySortedUnique(back.keys, v.keys);
    }
  }

  lemma WireEntries(v: View, s: Snapshot, back: View)
    requires WellFormed(v) && IsWireOf(s, v) && IsViewOf(back, s)
    ensures KeysOf(s.configs) == v.keys && back.byKey == v.byKey
  {
    hide Sorted;
    assert KeysOf(s.configs) == v.keys;
    forall k | k in back.byKey ensures back.byKey[k] == v.byKey[k] {
      IndexAgrees(s.configs, v.byKey, k);
    }
  }
}
