/** Selecting rows by prefix: LIKE patterns of store/dialect.go, the query of
    store/store.go, and the normalisation of prefix lists by client and server. */
module Prefixes {
  import opened Basics
  import opened Text
  import opened Order
  import opened Schema

  // ---------------------------------------------------------------- LIKE

  /** s matches the pattern with escape character backslash; section 8.5 of ISO/IEC 9075-2. */
  predicate Like(s: string, pattern: string)
    decreases |pattern|, |s|
  {
    if pattern == "" then s == ""
    else if pattern[0] == '\\' then
      |pattern| > 1 && s != "" && s[0] == pattern[1] && Like(s[1..], pattern[2..])
    else if pattern[0] == '%' then
      Like(s, pattern[1..]) || (s != "" && Like(s[1..], pattern))
    else
      s != "" && (pattern[0] == '_' || s[0] == pattern[0]) && Like(s[1..], pattern[1..])
  }

  /** One pass over the bytes, as strings.NewReplacer does for one-byte keys. */
  function EscapeLike(s: string): string {
    if s == "" then ""
    else (if s[0] == '\\' || s[0] == '%' || s[0] == '_' then ['\\', s[0]] else [s[0]]) + EscapeLike(s[1..])
  }

  function LikePrefix(prefix: string): string { EscapeLike(prefix) + "%" }

  /** What the wildcards, an escape and any other character match. */
  lemma LikeOfOne(s: string, c: char)
    ensures Like(s, "_") <==> |s| == 1
    ensures Like(s, ['\\', c]) <==> s == [c]
    ensures c != '\\' && c != '%' && c != '_' ==> (Like(s, [c]) <==> s == [c])
  {
    assert "_"[1..] == "" && ['\\', c][2..] == "" && [c][1..] == "";
    assert |s| == 1 ==> s == [s[0]] && s[1..] == "";
  }

  lemma {:induction false} PercentMatchesAll(s: string)
    ensures Like(s, "%")
    decreases |s|
  {
    assert "%"[1..] == "";
    if s != "" {
      PercentMatchesAll(s[1..]);
    }
  }

  /** Escaping is exact: the pattern of a prefix matches the keys that start with it and
      no others, whatever bytes the prefix holds. */
  lemma {:induction false} LikePrefixExact(p: string, k: string)
    ensures Like(k, LikePrefix(p)) <==> HasPrefix(k, p)
    decreases |p|
  {
    if p == "" {
      assert LikePrefix(p) == "%";
      PercentMatchesAll(k);
    } else {
      var escaped := p[0] == '\\' || p[0] == '%' || p[0] == '_';
      assert LikePrefix(p)[if escaped then 2 else 1..] == LikePrefix(p[1..]);
      if k != "" {
        LikePrefixExact(p[1..], k[1..]);
        assert HasPrefix(k, p) <==> k[0] == p[0] && HasPrefix(k[1..], p[1..]);
      }
    }
  }

  // ---------------------------------------------------------------- lists of prefixes

  /** The keys a prefix list asks for; no prefix at all means everything. */
  ghost predicate Selects(ps: seq<string>, key: string) {
    ps == [] || exists i :: 0 <= i < |ps| && HasPrefix(key, ps[i])
  }

  function FirstIndex(ps: seq<string>, x: string): (i: nat)
    requires x in ps
    ensures i < |ps| && ps[i] == x && forall j :: 0 <= j < i ==> ps[j] != x
  {
    if ps[0] == x then 0 else 1 + FirstIndex(ps[1..], x)
  }

  /** The members of a list, each once, in the order of their first occurrences. */
  ghost predicate FirstOccurrences(out: seq<string>, ps: seq<string>) {
    && NoDuplicates(out)
    && (forall x: string :: x in out <==> x in ps)
    && (out != [] <==> ps != [])
    && forall i, j :: 0 <= i < j < |out| ==> FirstIndex(ps, out[i]) < FirstIndex(ps, out[j])
  }

  lemma NextOccurrence(out: seq<string>, ps: seq<string>, p: string)
    requires FirstOccurrences(out, ps)
    ensures FirstOccurrences(if p in out then out else out + [p], ps + [p])
  {
    var more, all := if p in out then out else out + [p], ps + [p];
    forall x: string | x in ps ensures FirstIndex(all, x) == FirstIndex(ps, x) {
      var i, j := FirstIndex(all, x), FirstIndex(ps, x);
      assert all[j] == x && ps[j] == x;
      assert i < |ps| ==> ps[i] == x;
    }
    if p !in out {
      assert FirstIndex(all, p) == |ps|;
    }
    forall i, j | 0 <= i < j < |more| ensures FirstIndex(all, more[i]) < FirstIndex(all, more[j]) {
      assert more[i] == out[i] && out[i] in ps;
      assert j < |out| ==> more[j] == out[j] && out[j] in ps;
    }
  }

  lemma EmptyPrefixSelectsAll(ps: seq<string>, key: string)
    requires "" in ps
    ensures Selects(ps, key)
  {
    var i :| 0 <= i < |ps| && ps[i] == "";
    assert HasPrefix(key, ps[i]);
  }

  lemma SameMembersSelectSame(out: seq<string>, ps: seq<string>, key: string)
    requires FirstOccurrences(out, ps)
    ensures Selects(out, key) <==> Selects(ps, key)
  {
    if ps != [] && Selects(ps, key) {
      var i :| 0 <= i < |ps| && HasPrefix(key, ps[i]);
      assert ps[i] in out;
    }
    if out != [] && Selects(out, key) {
      var i :| 0 <= i < |out| && HasPrefix(key, out[i]);
      assert out[i] in ps;
    }
  }

  /** normalizePrefixes of the client: nil stands for everything. */
  method NormalizePrefixes(ps: seq<string>) returns (out: seq<string>)
    ensures if "" in ps then out == [] else FirstOccurrences(out, ps)
    ensures forall key: string :: Selects(out, key) <==> Selects(ps, key)
  {
    if |ps| == 0 {
      return [];
    }
    var seen: set<string> := {};
    out := [];
    assert FirstOccurrences(out, ps[..0]);
    hide FirstOccurrences;
    for i := 0 to |ps|
      invariant FirstOccurrences(out, ps[..i])
      invariant forall x: string :: x in seen <==> x in out
      invariant "" !in ps[..i]
    {
      assert ps[..i + 1] == ps[..i] + [ps[i]];
      NextOccurrence(out, ps[..i], ps[i]);
      if ps[i] == "" {
        forall key: string ensures Selects([], key) <==> Selects(ps, key) {
          EmptyPrefixSelectsAll(ps, key);
        }
        return [];
      }
      if ps[i] !in seen {
        seen := seen + {ps[i]};
        out := out + [ps[i]];
      }
    }
    assert ps[..|ps|] == ps;
    forall key: string ensures Selects(out, key) <==> Selects(ps, key) {
      SameMembersSelectSame(out, ps, key);
    }
  }

  const MAX_PREFIXES := 64

  datatype TooMany = TooMany(count: nat)

  /** prefixes of the server: at most 64, and [""] stands for everything. */
  method RequestPrefixes(ps: seq<string>) returns (r: Result<seq<string>, TooMany>)
    ensures |ps| > 64 ==> r == Err(TooMany(|ps|))
    ensures r.Ok? <==> |ps| <= 64
    ensures r.Ok? ==> if ps == [] || "" in ps then r.value == [""] else FirstOccurrences(r.value, ps)
    ensures r.Ok? ==> forall key: string :: Selects(r.value, key) <==> Selects(ps, key)
  {
    if |ps| == 0 {
      forall key: string ensures Selects([""], key) {
        EmptyPrefixSelectsAll([""], key);
      }
      return Ok([""]);
    }
    if |ps| > MAX_PREFIXES {
      return Err(TooMany(|ps|));
    }
    var seen: set<string> := {};
    var out: seq<string> := [];
    assert FirstOccurrences(out, ps[..0]);
    hide FirstOccurrences, Selects;
    for i := 0 to |ps|
      invariant FirstOccurrences(out, ps[..i])
      invariant forall x: string :: x in seen <==> x in out
      invariant "" !in ps[..i]
    {
      assert ps[..i + 1] == ps[..i] + [ps[i]];
      NextOccurrence(out, ps[..i], ps[i]);
      if ps[i] == "" {
        forall key: string ensures Selects([""], key) <==> Selects(ps, key) {
          EmptyPrefixSelectsAll(ps, key);
          EmptyPrefixSelectsAll([""], key);
        }
        return Ok([""]);
      }
      if ps[i] in seen {
        continue;
      }
      seen := seen + {ps[i]};
      out := out + [ps[i]];
    }
    assert ps[..|ps|] == ps;
    forall key: string ensures Selects(out, key) <==> Selects(ps, key) {
      SameMembersSelectSame(out, ps, key);
    }
    r := Ok(out);
  }

  // ---------------------------------------------------------------- the query

  /** A SELECT over lite_config ordered by key: its LIKE conditions, joined by OR, and the
      arguments bound to their placeholders. */
  datatype Query = Query(filtered: bool, conditions: nat, args: seq<string>)

  method PrefixQuery(ps: seq<string>) returns (q: Query)
    ensures q.conditions == |q.args|
    ensures !q.filtered <==> ps == [] || "" in ps
    ensures !q.filtered ==> q.args == []
    ensures q.filtered ==> |q.args| == |ps| && forall i :: 0 <= i < |ps| ==> q.args[i] == LikePrefix(ps[i])
  {
    var conditions, args := 0, [];
    var all := |ps| == 0;
    for i := 0 to |ps|
      invariant conditions == |args| == i && "" !in ps[..i]
      invariant all == (|ps| == 0)
      invariant forall k :: 0 <= k < i ==> args[k] == LikePrefix(ps[k])
    {
      if ps[i] == "" {
        // An empty prefix subsumes the earlier ones, whose arguments must go too.
        all := true;
        conditions, args := 0, [];
        break;
      }
      conditions := conditions + 1;
      args := args + [LikePrefix(ps[i])];
    }
    q := Query(!all, conditions, args);
  }

  predicate Matches(q: Query, key: string) {
    !q.filtered || exists i :: 0 <= i < |q.args| && Like(key, q.args[i])
  }

  /** The query selects exactly the keys that the prefix list asks for. */
  lemma QueryIsExact(q: Query, ps: seq<string>, key: string)
    requires !q.filtered <==> ps == [] || "" in ps
    requires q.filtered ==> |q.args| == |ps| && forall i :: 0 <= i < |ps| ==> q.args[i] == LikePrefix(ps[i])
    ensures Matches(q, key) <==> Selects(ps, key)
  {
    if !q.filtered && ps != [] {
      EmptyPrefixSelectsAll(ps, key);
    }
    if q.filtered {
      forall i | 0 <= i < |ps| ensures Like(key, q.args[i]) <==> HasPrefix(key, ps[i]) {
        LikePrefixExact(ps[i], key);
      }
      if Selects(ps, key) {
        var i :| 0 <= i < |ps| && HasPrefix(key, ps[i]);
        assert Like(key, q.args[i]);
      }
    }
  }

  datatype Listed = Listed(key: string, row: Row)

  /** Strictly sorted by key, exactly the selected rows of the table. */
  ghost predicate IsListing(out: seq<Listed>, config: map<string, Row>, ps: seq<string>) {
    && (forall i, j :: 0 <= i < j < |out| ==> Less(out[i].key, out[j].key))
    && (forall i :: 0 <= i < |out| ==> out[i].key in config && out[i].row == config[out[i].key] && Selects(ps, out[i].key))
    && (forall k :: k in config && Selects(ps, k) ==> exists i :: 0 <= i < |out| && out[i].key == k)
  }

  /** ListPrefixes: one statement against one committed state of the table. */
  method ListPrefixes(config: map<string, Row>, ps: seq<string>) returns (out: seq<Listed>)
    ensures IsListing(out, config, ps)
  {
    var q := PrefixQuery(ps);
    var rest, keys := config.Keys, [];
    while rest != {}
      invariant rest <= config.Keys
      invariant NoDuplicates(keys)
      invariant forall k: string :: k in keys <==> k in config && k !in rest && Matches(q, k)
      decreases rest
    {
      var k :| k in rest;
      rest := rest - {k};
      if Matches(q, k) {
        keys := keys + [k];
      }
    }
    var sorted := Sort(keys);
    SameMembers(sorted, keys);
    UniqueByMultiset(keys, sorted);
    StrictIfUnique(sorted);
    assert forall i :: 0 <= i < |sorted| ==> sorted[i] in keys;
    out := seq(|sorted|, i requires 0 <= i < |sorted| => Listed(sorted[i], config[sorted[i]]));
    forall i | 0 <= i < |out| ensures Selects(ps, out[i].key) {
      QueryIsExact(q, ps, out[i].key);
    }
    forall k | k in config && Selects(ps, k) ensures exists i :: 0 <= i < |out| && out[i].key == k {
      QueryIsExact(q, ps, k);
      assert k in sorted;
      var i :| 0 <= i < |sorted| && sorted[i] == k;
      assert out[i].key == k;
    }
  }

  function KeysListed(x: seq<Listed>): (ks: seq<string>)
    ensures |ks| == |x| && forall i :: 0 <= i < |x| ==> ks[i] == x[i].key
  {
    seq(|x|, i requires 0 <= i < |x| => x[i].key)
  }

  lemma ListedKeys(x: seq<Listed>, config: map<string, Row>, ps: seq<string>, k: string)
    requires IsListing(x, config, ps)
    ensures k in KeysListed(x) <==> k in config && Selects(ps, k)
  {
    hide Selects, Less;
    if k in config && Selects(ps, k) {
      var i :| 0 <= i < |x| && x[i].key == k;
      assert KeysListed(x)[i] == k;
    }
  }

  /** A listing is determined by the table and the keys selected, so prefix lists that
      select the same keys list the same rows in the same order. */
  lemma {:induction false} ListingUnique(x: seq<Listed>, y: seq<Listed>, config: map<string, Row>,
                                         ps: seq<string>, qs: seq<string>)
    requires IsListing(x, config, ps) && IsListing(y, config, qs)
    requires forall key: string :: Selects(ps, key) <==> Selects(qs, key)
    ensures x == y
  {
    hide Selects, Less;
    var xs, ys := KeysListed(x), KeysListed(y);
    forall k: string ensures k in xs <==> k in ys {
      ListedKeys(x, config, ps, k);
      ListedKeys(y, config, qs, k);
    }
    StrictlySortedUnique(xs, ys);
    forall i | 0 <= i < |x| ensures x[i] == y[i] {
      assert xs[i] == ys[i];
    }
  }
}
