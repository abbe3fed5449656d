/** One fetch of a snapshot's data, as server/handler.go and client/dbsource/dbsource.go
    do it, and that it carries exactly the projection the watermark protocol speaks of. */
module Delivery {
  import opened Basics
  import opened Order
  import opened Prefixes
  import S = Schema
  import V = Views
  import W = Watermark
  import C = CommittedLog

  /** The text that a snapshot carries for a format. */
  function FormatName(f: S.Format): (name: string)
    ensures (f == S.Raw ==> name == "raw") && (f == S.Json ==> name == "json") && (f == S.Yaml ==> name == "yaml")
    ensures f.Other? ==> name == f.name
  {
    match f
    case Raw => "raw"
    case Json => "json"
    case Yaml => "yaml"
    case Other(name) => name
  }

  /** The entries of a snapshot are those of the contents, key by key. */
  ghost predicate Carries(s: V.Snapshot, contents: W.Contents) {
    && StrictlySorted(V.KeysOf(s.configs))
    && (forall k :: k in V.Index(s.configs) <==> k in contents)
    && (forall k :: k in contents ==>
          V.Index(s.configs)[k] == V.Config(k, contents[k].value, FormatName(contents[k].format)))
  }

  lemma ListCarries(s: V.Snapshot, list: seq<Listed>, config: map<string, S.Row>, ps: seq<string>)
    requires IsListing(list, config, ps) && |s.configs| == |list|
    requires forall j :: 0 <= j < |list| ==>
               s.configs[j] == V.Config(list[j].key, list[j].row.value, FormatName(list[j].row.format))
    ensures Carries(s, W.Project(C.Seen(config), ps))
  {
    hide FormatName, V.Index, Less, Selects;
    var out, contents := s.configs, W.Project(C.Seen(config), ps);
    forall k ensures k in V.Index(out) <==> k in contents {
      if k in contents {
        var i :| 0 <= i < |list| && list[i].key == k;
        assert V.KeysOf(out)[i] == k;
      }
    }
    forall k | k in contents
      ensures V.Index(out)[k] == V.Config(k, contents[k].value, FormatName(contents[k].format))
    {
      assert V.Index(out)[k] in out;
    }
  }

  /** One query against one committed state, copied row by row under a label read before it. */
  method Fetch(config: map<string, S.Row>, ps: seq<string>, rev: int) returns (s: V.Snapshot)
    ensures s.revision == rev
    ensures Carries(s, W.Project(C.Seen(config), ps))
  {
    var list := ListPrefixes(config, ps);
    var out: seq<V.Config> := [];
    for i := 0 to |list|
      invariant |out| == i
      invariant forall j :: 0 <= j < i ==>
                  out[j] == V.Config(list[j].key, list[j].row.value, FormatName(list[j].row.format))
    {
      out := out + [V.Config(list[i].key, list[i].row.value, FormatName(list[i].row.format))];
    }
    s := V.Snapshot(rev, out);
    ListCarries(s, list, config, ps);
  }

  /** The server's snapshot: labelled with the smaller of the revision it shows to clients
      and the one it read from the database just before the data. */
  method ServeSnapshot(shown: int, dbRev: Result<int, S.Error>, config: map<string, S.Row>, ps: seq<string>)
    returns (r: Result<V.Snapshot, S.Error>)
    ensures r.Err? <==> dbRev.Err?
    ensures r.Err? ==> r.error == dbRev.error
    ensures r.Ok? ==> Carries(r.value, W.Project(C.Seen(config), ps))
    ensures r.Ok? ==> r.value.revision == if shown <= dbRev.value then shown else dbRev.value
  {
    if dbRev.Err? {
      return Err(dbRev.error);
    }
    var s := Fetch(config, ps, Min(shown, dbRev.value));
    r := Ok(s);
  }

  /** One read of the revision by the direct poller, and the table as a query right after
      it would find it; the database may have moved in between and since the last read. */
  datatype Look = Look(rev: Result<int, S.Error>, table: map<string, S.Row>)

  /** The direct poller: looks lists its reads until its deadline; the first revision that
      differs from the baseline labels the data read after it. No difference is reported as
      no snapshot, not as an error. */
  method Poll(looks: seq<Look>, since: int, ps: seq<string>) returns (r: Result<Option<V.Snapshot>, S.Error>)
    ensures r == Ok(None) <==> forall i :: 0 <= i < |looks| ==> looks[i].rev == Ok(since)
    ensures r.Ok? && r.value.Some? ==>
              exists n: nat :: FirstOther(looks, since, n) && looks[n].rev == Ok(r.value.value.revision) &&
                          Carries(r.value.value, W.Project(C.Seen(looks[n].table), ps))
    ensures r.Err? ==> exists n: nat :: FirstOther(looks, since, n) && looks[n].rev == Err(r.error)
  {
    for n := 0 to |looks|
      invariant forall i :: 0 <= i < n ==> looks[i].rev == Ok(since)
    {
      if looks[n].rev.Err? {
        assert FirstOther(looks, since, n);
        return Err(looks[n].rev.error);
      }
      if looks[n].rev.value != since {
        assert FirstOther(looks, since, n);
        var s := Fetch(looks[n].table, ps, looks[n].rev.value);
        return Ok(Some(s));
      }
    }
    r := Ok(None);
  }

  /** Read n is the first that is not the unchanged baseline. */
  ghost predicate FirstOther(looks: seq<Look>, since: int, n: nat) {
    n < |looks| && looks[n].rev != Ok(since) && forall i :: 0 <= i < n ==> looks[i].rev == Ok(since)
  }
}
