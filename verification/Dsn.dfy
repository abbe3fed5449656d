/** NormalizeDSN of store/dsn.go. */
module Dsn {
  import opened Basics
  import opened Text
  import opened Subsequences

  /** strings.Cut at the first occurrence of a one-byte separator. */
  function Cut(s: string, sep: char): (r: Option<(string, string)>)
    ensures r.None? <==> sep !in s
    ensures r.Some? ==> s == r.value.0 + [sep] + r.value.1 && sep !in r.value.0
  {
    if s == "" then None
    else if s[0] == sep then Some(("", s[1..]))
    else
      match Cut(s[1..], sep)
      case None => None
      case Some((a, b)) => assert s == [s[0]] + s[1..]; Some(([s[0]] + a, b))
  }

  /** strings.CutLast at the last occurrence. */
  function CutLast(s: string, sep: char): (r: Option<(string, string)>)
    ensures r.None? <==> sep !in s
    ensures r.Some? ==> s == r.value.0 + [sep] + r.value.1 && sep !in r.value.1
  {
    if s == "" then None
    else
      var init, last := s[..|s| - 1], s[|s| - 1];
      assert s == init + [last];
      if last == sep then Some((init, ""))
      else
        match CutLast(init, sep)
        case None => None
        case Some((a, b)) => assert s == a + [sep] + (b + [last]); Some((a, b + [last]))
  }

  const PARSE_TIME := "parseTime=true"

  predicate IsParseTime(p: string) { HasPrefix(p, "parseTime=") }

  /** slices.DeleteFunc for empty and parseTime parameters. */
  function KeptParams(ps: seq<string>): seq<string> {
    if ps == [] then []
    else (if ps[0] == "" || IsParseTime(ps[0]) then [] else [ps[0]]) + KeptParams(ps[1..])
  }

  function NormalizeDsn(driver: string, dsn: string): string {
    if driver != "mysql" || dsn == "" then dsn
    else
      match CutLast(dsn, '/')
      case None => dsn
      case Some((head, tail)) =>
        match Cut(tail, '?')
        case None => dsn + "?parseTime=true"
        case Some((dbname, params)) =>
          head + "/" + dbname + "?" + Join(KeptParams(Split(params, '&')) + [PARSE_TIME], '&')
  }

  /** A DSN as the MySQL driver reads it: split at the last slash, then at the first
      question mark after it. */
  datatype Parsed = Parsed(head: string, dbname: string, params: seq<string>)

  function Parse(dsn: string): Option<Parsed> {
    match CutLast(dsn, '/')
    case None => None
    case Some((head, tail)) =>
      match Cut(tail, '?')
      case None => Some(Parsed(head, tail, []))
      case Some((dbname, params)) => Some(Parsed(head, dbname, Split(params, '&')))
  }

  lemma FirstSeparator(a: string, b: string, x: string, y: string, sep: char)
    requires a + [sep] + b == x + [sep] + y && sep !in a && sep !in x
    ensures a == x && b == y
  {
    var s := a + [sep] + b;
    assert s == x + [sep] + y;
    assert s[|a|] == sep && s[|x|] == sep;
    assert forall i :: 0 <= i < |a| ==> s[i] == a[i] && a[i] in a;
    assert forall i :: 0 <= i < |x| ==> s[i] == x[i] && x[i] in x;
    assert |a| == |x|;
    assert a == s[..|a|] == x && b == s[|a| + 1..] == y;
  }

  lemma CutUnique(a: string, b: string, sep: char)
    requires sep !in a
    ensures Cut(a + [sep] + b, sep) == Some((a, b))
  {
    assert (a + [sep] + b)[|a|] == sep;
    var (x, y) := Cut(a + [sep] + b, sep).value;
    FirstSeparator(a, b, x, y, sep);
  }

  lemma NoneAfter(a: string, b: string, sep: char)
    requires sep !in b
    ensures forall k :: |a| < k < |a| + 1 + |b| ==> (a + [sep] + b)[k] != sep
  {
    forall k | |a| < k < |a| + 1 + |b| ensures (a + [sep] + b)[k] != sep {
      assert (a + [sep] + b)[k] == b[k - |a| - 1];
    }
  }

  lemma LastSeparator(a: string, b: string, x: string, y: string, sep: char)
    requires a + [sep] + b == x + [sep] + y && sep !in b && sep !in y
    ensures a == x && b == y
  {
    NoneAfter(a, b, sep);
    NoneAfter(x, y, sep);
    var s := a + [sep] + b;
    assert s[|a|] == sep && (x + [sep] + y)[|x|] == sep;
    assert |a| == |x|;
    assert a == s[..|a|] == x && b == s[|a| + 1..] == y;
  }

  lemma CutLastUnique(a: string, b: string, sep: char)
    requires sep !in b
    ensures CutLast(a + [sep] + b, sep) == Some((a, b))
  {
    assert (a + [sep] + b)[|a|] == sep;
    var (x, y) := CutLast(a + [sep] + b, sep).value;
    LastSeparator(a, b, x, y, sep);
  }

  lemma {:induction false} KeptParamsFree(ps: seq<string>)
    requires AllFreeOf(ps, '&') && AllFreeOf(ps, '/')
    ensures AllFreeOf(KeptParams(ps), '&') && AllFreeOf(KeptParams(ps), '/')
    ensures forall p :: p in KeptParams(ps) <==> p in ps && p != "" && !IsParseTime(p)
  {
    if ps != [] {
      KeptParamsFree(ps[1..]);
    }
  }

  lemma {:induction false} KeptAgain(ps: seq<string>)
    ensures KeptParams(KeptParams(ps) + [PARSE_TIME]) == KeptParams(ps)
  {
    if ps == [] {
      assert KeptParams(ps) + [PARSE_TIME] == [PARSE_TIME];
      assert IsParseTime(PARSE_TIME);
    } else {
      KeptAgain(ps[1..]);
      var rest := KeptParams(ps[1..]) + [PARSE_TIME];
      if ps[0] != "" && !IsParseTime(ps[0]) {
        assert KeptParams(ps) == [ps[0]] + KeptParams(ps[1..]);
        var all := KeptParams(ps) + [PARSE_TIME];
        assert all == [ps[0]] + rest && all[0] == ps[0] && all[1..] == rest;
        assert KeptParams(all) == [ps[0]] + KeptParams(rest);
      } else {
        assert KeptParams(ps) == KeptParams(ps[1..]);
      }
    }
  }

  lemma {:induction false} JoinFree(parts: seq<string>, sep: char, c: char)
    requires AllFreeOf(parts, c) && c != sep
    ensures c !in Join(parts, sep)
  {
    if |parts| > 1 {
      JoinFree(parts[1..], sep, c);
    }
  }

  lemma {:induction false} SplitFree(s: string, sep: char, c: char)
    requires c !in s
    ensures AllFreeOf(Split(s, sep), c)
  {
    if s != "" {
      assert s == [s[0]] + s[1..];
      SplitFree(s[1..], sep, c);
    }
  }

  /** A DSN put together from its parts is read back as those parts. */
  lemma ParseOfParts(head: string, dbname: string, params: seq<string>)
    requires '/' !in dbname && '?' !in dbname
    requires params != [] && AllFreeOf(params, '&') && AllFreeOf(params, '/')
    ensures Parse(head + "/" + dbname + "?" + Join(params, '&')) == Some(Parsed(head, dbname, params))
  {
    hide Cut, CutLast, Join, Split;
    var tail := dbname + "?" + Join(params, '&');
    assert head + "/" + dbname + "?" + Join(params, '&') == head + "/" + tail;
    JoinFree(params, '&', '/');
    CutLastUnique(head, tail, '/');
    CutUnique(dbname, Join(params, '&'), '?');
    SplitJoin(params, '&');
  }

  lemma NormalizedWithout(head: string, dbname: string)
    requires '/' !in dbname && '?' !in dbname
    ensures Parse(head + "/" + dbname + "?parseTime=true") == Some(Parsed(head, dbname, [PARSE_TIME]))
  {
    hide Parse, Join;
    ParseOfParts(head, dbname, [PARSE_TIME]);
    JoinOne(PARSE_TIME, '&');
    assert head + "/" + dbname + "?parseTime=true" == head + "/" + dbname + "?" + PARSE_TIME;
  }

  lemma NormalizedWith(head: string, dbname: string, params: string)
    requires '/' !in dbname && '?' !in dbname && '/' !in params
    ensures var kept := KeptParams(Split(params, '&')) + [PARSE_TIME];
            Parse(head + "/" + dbname + "?" + Join(kept, '&')) == Some(Parsed(head, dbname, kept))
  {
    hide Parse, Join, Split, KeptParams, IsParseTime;
    var ps := Split(params, '&');
    SplitParts(params, '&');
    SplitFree(params, '&', '/');
    KeptParamsFree(ps);
    ParseOfParts(head, dbname, KeptParams(ps) + [PARSE_TIME]);
  }

  /** Read by the driver, the normalised DSN has the same part before the parameters, the
      same other non-empty parameters in the same order, and parseTime=true last. */
  lemma NormalizedParams(dsn: string)
    requires '/' in dsn
    ensures Parse(NormalizeDsn("mysql", dsn)) ==
            Some(Parsed(Parse(dsn).value.head, Parse(dsn).value.dbname,
                        KeptParams(Parse(dsn).value.params) + [PARSE_TIME]))
  {
    NoParams();
    var (head, tail) := CutLast(dsn, '/').value;
    assert [] + [PARSE_TIME] == [PARSE_TIME];
    match Cut(tail, '?')
    case None =>
      hide CutLast, Cut, Split, Join, KeptParams;
      NormalizedWithout(head, tail);
      assert dsn + "?parseTime=true" == head + "/" + tail + "?parseTime=true";
    case Some((dbname, params)) =>
      hide CutLast, Cut, Split, Join, KeptParams;
      NormalizedWith(head, dbname, params);
  }

  lemma NoParams()
    ensures KeptParams([]) == []
  {
  }

  lemma JoinOne(s: string, sep: char)
    ensures Join([s], sep) == s
  {
  }

  /** Exactly the empty and the parseTime parameters are dropped; the others keep their order. */
  lemma {:induction false} KeptExactly(ps: seq<string>)
    ensures IsSubsequence(KeptParams(ps), ps)
    ensures forall p: string ::
              multiset(KeptParams(ps))[p] == if p == "" || HasPrefix(p, "parseTime=") then 0 else multiset(ps)[p]
  {
    if ps != [] {
      KeptExactly(ps[1..]);
      assert ps == [ps[0]] + ps[1..];
      if ps[0] != "" && !IsParseTime(ps[0]) {
        assert KeptParams(ps)[1..] == KeptParams(ps[1..]);
      } else {
        assert KeptParams(ps) == KeptParams(ps[1..]);
        SubsequenceWiden(KeptParams(ps[1..]), ps[1..], ps[0]);
      }
    }
  }

  /** All other non-empty parameters are kept, as often as they were there and in their order. */
  lemma OtherParamsKept(dsn: string)
    requires '/' in dsn
    ensures var before, after := Parse(dsn).value, Parse(NormalizeDsn("mysql", dsn)).value;
            && (after.head, after.dbname) == (before.head, before.dbname)
            && after.params != [] && after.params[|after.params| - 1] == "parseTime=true"
            && var others := after.params[..|after.params| - 1];
               IsSubsequence(others, before.params) &&
               forall p: string :: multiset(others)[p] ==
                 if p == "" || HasPrefix(p, "parseTime=") then 0 else multiset(before.params)[p]
  {
    hide IsSubsequence, KeptParams;
    NormalizedParams(dsn);
    var kept := KeptParams(Parse(dsn).value.params);
    KeptExactly(Parse(dsn).value.params);
    assert (kept + [PARSE_TIME])[..|kept|] == kept;
  }

  /** Other drivers' DSNs and those without a slash are left alone. */
  lemma LeftAlone(driver: string, dsn: string)
    requires driver != "mysql" || '/' !in dsn
    ensures NormalizeDsn(driver, dsn) == dsn
  {
  }

  /** Exactly one parseTime parameter, and it is the last. */
  lemma OneParseTime(dsn: string)
    requires '/' in dsn
    ensures var ps := Parse(NormalizeDsn("mysql", dsn)).value.params;
            && ps != [] && ps[|ps| - 1] == "parseTime=true"
            && forall i :: 0 <= i < |ps| && HasPrefix(ps[i], "parseTime=") ==> i == |ps| - 1
  {
    assert Parse(dsn).Some?;
    hide NormalizeDsn, Parse, KeptParams, HasPrefix;
    NormalizedParams(dsn);
    ParseTimeLast(Parse(dsn).value.params);
  }

  lemma ParseTimeLast(params: seq<string>)
    ensures var ps := KeptParams(params) + [PARSE_TIME];
            forall i :: 0 <= i < |ps| && HasPrefix(ps[i], "parseTime=") ==> i == |ps| - 1
  {
    hide KeptParams;
    KeptMembers(params);
    forall i | 0 <= i < |KeptParams(params)| ensures !HasPrefix(KeptParams(params)[i], "parseTime=") {
      assert !IsParseTime(KeptParams(params)[i]);
    }
  }

  lemma {:induction false} KeptMembers(ps: seq<string>)
    ensures forall p :: p in KeptParams(ps) ==> p in ps && p != "" && !IsParseTime(p)
  {
    if ps != [] {
      KeptMembers(ps[1..]);
    }
  }

  /** A DSN that ends in its kept parameters and parseTime=true is already normal. */
  lemma AlreadyNormal(head: string, dbname: string, kept: seq<string>)
    requires '/' !in dbname && '?' !in dbname
    requires AllFreeOf(kept, '&') && AllFreeOf(kept, '/')
    requires KeptParams(kept + [PARSE_TIME]) == kept
    ensures var dsn := head + "/" + dbname + "?" + Join(kept + [PARSE_TIME], '&');
            NormalizeDsn("mysql", dsn) == dsn
  {
    hide Cut, CutLast, Join, Split, KeptParams;
    var params := Join(kept + [PARSE_TIME], '&');
    var tail := dbname + "?" + params;
    assert head + "/" + dbname + "?" + params == head + "/" + tail;
    JoinFree(kept + [PARSE_TIME], '&', '/');
    CutLastUnique(head, tail, '/');
    CutUnique(dbname, params, '?');
    SplitJoin(kept + [PARSE_TIME], '&');
  }

  /** Normalising twice is normalising once, for every driver and every DSN. */
  lemma NormalizeIdempotent(driver: string, dsn: string)
    ensures NormalizeDsn(driver, NormalizeDsn(driver, dsn)) == NormalizeDsn(driver, dsn)
  {
    hide Cut, CutLast, Join, Split, KeptParams, IsParseTime;
    if driver == "mysql" && '/' in dsn {
      var (head, tail) := CutLast(dsn, '/').value;
      match Cut(tail, '?')
      case None =>
        KeptAgain([]);
        NoParams();
        JoinOne(PARSE_TIME, '&');
        assert [] + [PARSE_TIME] == [PARSE_TIME];
        AlreadyNormal(head, tail, []);
        assert dsn + "?parseTime=true" == head + "/" + tail + "?" + PARSE_TIME;
      case Some((dbname, params)) =>
        var ps := Split(params, '&');
        SplitParts(params, '&');
        SplitFree(params, '&', '/');
        KeptParamsFree(ps);
        KeptAgain(ps);
        AlreadyNormal(head, dbname, KeptParams(ps));
    }
  }
}
