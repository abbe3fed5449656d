/** The tables of package store, the guards of store/validate.go, and what one write
    does to the tables when it runs alone. */
module Schema {
  import opened Basics

  datatype Error = InvalidKey | InvalidValue | InvalidChange | NotFound | NotMigrated

  datatype Format = Raw | Json | Yaml | Other(name: string)

  datatype Change = Change(author: string, comment: string)

  datatype OpKind = OpSet | OpDelete | OpRollback

  /** A row of lite_config without its timestamp. */
  datatype Row = Row(value: string, format: Format, author: string)

  /** A row of lite_config_history; its place in the table stands for its id. */
  datatype Entry = Entry(key: string, value: string, format: Format, version: int,
                         op: OpKind, comment: string, author: string)

  /** meta is the revision in the row id=1 of lite_config_meta, if the row exists. */
  datatype Tables = Tables(meta: Option<int>, config: map<string, Row>, history: seq<Entry>)

  datatype Written = Written(revision: int, version: int)

  datatype Request =
    | Set(key: string, value: string, format: Format, change: Change)
    | Delete(key: string, change: Change)
    | Rollback(key: string, toVersion: int, change: Change)
  {
    function Kind(): OpKind {
      match this
      case Set(_, _, _, _) => OpSet
      case Delete(_, _) => OpDelete
      case Rollback(_, _, _) => OpRollback
    }
  }

  // ---------------------------------------------------------------- validation

  const MAX_KEY_LEN := 191
  const MAX_VALUE_SIZE := 1024 * 1024
  const MAX_AUTHOR_LEN := 64
  const MAX_COMMENT_LEN := 255

  predicate IsKeyChar(c: char) {
    'A' <= c <= 'Z' || 'a' <= c <= 'z' || '0' <= c <= '9' || c in "_.:@-"
  }

  predicate ValidKey(key: string) {
    0 < |key| <= MAX_KEY_LEN && forall i :: 0 <= i < |key| ==> IsKeyChar(key[i])
  }

  predicate ValidChange(c: Change) {
    |c.author| <= MAX_AUTHOR_LEN && |c.comment| <= MAX_COMMENT_LEN
  }

  /** Which texts the JSON and YAML parsers accept. */
  datatype Syntax = Syntax(json: string -> bool, yaml: string -> bool)

  predicate ValidValue(s: Syntax, value: string, format: Format) {
    |value| <= MAX_VALUE_SIZE &&
    match format
    case Raw => true
    case Json => s.json(value)
    case Yaml => s.yaml(value)
    case Other(_) => false
  }

  /** An empty format means raw. */
  function OrRaw(f: Format): Format { if f == Other("") then Raw else f }

  /** The limits and the key alphabet, and which formats there are. */
  lemma Limits(s: Syntax, key: string, c: Change, value: string, format: Format)
    ensures ValidKey(key) <==>
            0 < |key| <= 191 &&
            forall i :: 0 <= i < |key| ==>
              'A' <= key[i] <= 'Z' || 'a' <= key[i] <= 'z' || '0' <= key[i] <= '9' ||
              key[i] == '_' || key[i] == '.' || key[i] == ':' || key[i] == '@' || key[i] == '-'
    ensures ValidChange(c) <==> |c.author| <= 64 && |c.comment| <= 255
    ensures ValidValue(s, value, format) <==>
            |value| <= 1048576 &&
            (format == Raw || (format == Json && s.json(value)) || (format == Yaml && s.yaml(value)))
  {
    assert forall c: char :: c in "_.:@-" <==> c == '_' || c == '.' || c == ':' || c == '@' || c == '-';
  }

  // ---------------------------------------------------------------- reading the tables

  /** The highest version recorded for a key, or 0. */
  function MaxVersion(h: seq<Entry>, key: string): int {
    if h == [] then 0
    else
      var rest := MaxVersion(h[..|h| - 1], key);
      var last := h[|h| - 1];
      if last.key == key && last.version > rest then last.version else rest
  }

  /** SELECT value, format ... WHERE config_key = ? AND version = ?. */
  function FindVersion(h: seq<Entry>, key: string, version: int): (r: Option<Entry>)
    ensures r.Some? ==> r.value in h && r.value.key == key && r.value.version == version
    ensures r.None? ==> forall e :: e in h ==> !(e.key == key && e.version == version)
  {
    if h == [] then None
    else if h[|h| - 1].key == key && h[|h| - 1].version == version then Some(h[|h| - 1])
    else FindVersion(h[..|h| - 1], key, version)
  }

  /** What resolve decides to write: the given value, the current one, or a recorded one. */
  function Resolve(r: Request, cur: Option<Row>, h: seq<Entry>): Result<(string, Format), Error> {
    match r
    case Set(_, value, format, _) => Ok((value, OrRaw(format)))
    case Delete(_, _) => if cur.None? then Err(NotFound) else Ok((cur.value.value, cur.value.format))
    case Rollback(key, v, _) =>
      match FindVersion(h, key, v)
      case None => Err(NotFound)
      case Some(e) => Ok((e.value, e.format))
  }

  function Lookup(config: map<string, Row>, key: string): Option<Row> {
    if key in config then Some(config[key]) else None
  }

  /** DELETE for a delete, upsert otherwise. */
  function Put(config: map<string, Row>, r: Request, value: string, format: Format): map<string, Row> {
    if r.Delete? then config - {r.key} else config[r.key := Row(value, format, r.change.author)]
  }

  function EntryFor(r: Request, value: string, format: Format, version: int): Entry {
    Entry(r.key, value, format, version, r.Kind(), r.change.comment, r.change.author)
  }

  // ---------------------------------------------------------------- one write

  /** One write alone: the new tables and what it reports. On any error the tables are the old ones. */
  function Exec(s: Syntax, t: Tables, r: Request): (Tables, Result<Written, Error>) {
    if !ValidKey(r.key) then (t, Err(InvalidKey))
    else if !ValidChange(r.change) then (t, Err(InvalidChange))
    else if t.meta.None? then (t, Err(NotMigrated))
    else
      match Resolve(r, Lookup(t.config, r.key), t.history)
      case Err(e) => (t, Err(e))
      case Ok((value, format)) =>
        if !ValidValue(s, value, format) then (t, Err(InvalidValue))
        else
          var rev, version := t.meta.value + 1, MaxVersion(t.history, r.key) + 1;
          (Tables(Some(rev), Put(t.config, r, value, format), t.history + [EntryFor(r, value, format, version)]),
           Ok(Written(rev, version)))
  }

  function ExecAll(s: Syntax, t: Tables, rs: seq<Request>): Tables {
    if rs == [] then t else Exec(s, ExecAll(s, t, rs[..|rs| - 1]), rs[|rs| - 1]).0
  }

  /** The tables after Migrate: the seed row at revision 0, nothing else. */
  const MIGRATED := Tables(Some(0), map[], [])

  // ---------------------------------------------------------------- what the history means

  /** The state of one key after a history, from its last entry alone. */
  ghost function Replay(h: seq<Entry>): map<string, Row> {
    if h == [] then map[]
    else
      var before, e := Replay(h[..|h| - 1]), h[|h| - 1];
      if e.op == OpDelete then before - {e.key} else before[e.key := Row(e.value, e.format, e.author)]
  }

  /** How many entries a key has. */
  ghost function Count(h: seq<Entry>, key: string): nat {
    if h == [] then 0 else Count(h[..|h| - 1], key) + if h[|h| - 1].key == key then 1 else 0
  }

  /** Every entry is numbered by its place among the entries of its key. */
  ghost predicate VersionsConsecutive(h: seq<Entry>) {
    forall i {:trigger h[i]} :: 0 <= i < |h| ==> h[i].version == Count(h[..i], h[i].key) + 1
  }

  ghost predicate EntryValid(s: Syntax, e: Entry) {
    ValidKey(e.key) && ValidValue(s, e.value, e.format)
  }

  /** The safety of the store: the watermark counts the writes, the config table is the
      replay of the history, versions are 1..n per key, and everything stored is valid. */
  ghost predicate Consistent(s: Syntax, t: Tables) {
    && t.meta == Some(|t.history|)
    && t.config == Replay(t.history)
    && VersionsConsecutive(t.history)
    && (forall i :: 0 <= i < |t.history| ==> EntryValid(s, t.history[i]))
  }

  lemma {:induction false} MaxIsCount(h: seq<Entry>, key: string)
    requires VersionsConsecutive(h)
    ensures MaxVersion(h, key) == Count(h, key)
  {
    if h != [] {
      var init := h[..|h| - 1];
      forall i | 0 <= i < |init| ensures init[i].version == Count(init[..i], init[i].key) + 1 {
        assert init[i] == h[i] && init[..i] == h[..i];
      }
      MaxIsCount(init, key);
      assert h[|h| - 1].version == Count(init, h[|h| - 1].key) + 1;
    }
  }

  /** Rows come from the history, so what is stored there is valid too. */
  lemma {:induction false} ReplayedRow(h: seq<Entry>, key: string)
    requires key in Replay(h)
    ensures exists i :: 0 <= i < |h| && h[i].key == key && h[i].op != OpDelete &&
                        Replay(h)[key] == Row(h[i].value, h[i].format, h[i].author)
  {
    var last := h[|h| - 1];
    if last.key == key && last.op != OpDelete {
      assert h[|h| - 1].key == key;
    } else {
      var init := h[..|h| - 1];
      ReplayedRow(init, key);
      var i :| 0 <= i < |init| && init[i].key == key && init[i].op != OpDelete &&
               Replay(init)[key] == Row(init[i].value, init[i].format, init[i].author);
      assert h[i] == init[i];
    }
  }

  lemma ConsistentAppend(s: Syntax, t: Tables, e: Entry)
    requires Consistent(s, t) && EntryValid(s, e) && e.version == MaxVersion(t.history, e.key) + 1
    ensures Consistent(s, Tables(Some(|t.history| + 1), Replay(t.history + [e]), t.history + [e]))
  {
    var h := t.history + [e];
    MaxIsCount(t.history, e.key);
    forall i | 0 <= i < |h| ensures h[i].version == Count(h[..i], h[i].key) + 1 {
      assert h[..i] == t.history[..i];
      if i == |t.history| {
        assert t.history[..i] == t.history;
      }
    }
  }

  /** The tables' write and the replay of its record agree. */
  lemma ReplayWrite(h: seq<Entry>, r: Request, e: Entry)
    requires e == EntryFor(r, e.value, e.format, e.version)
    ensures Replay(h + [e]) == Put(Replay(h), r, e.value, e.format)
  {
    assert (h + [e])[..|h|] == h;
  }

  /** Every write keeps the store safe. */
  lemma ExecKeepsConsistent(s: Syntax, t: Tables, r: Request)
    requires Consistent(s, t)
    ensures Consistent(s, Exec(s, t, r).0)
  {
    if Exec(s, t, r).1.Ok? {
      var Ok((value, format)) := Resolve(r, Lookup(t.config, r.key), t.history);
      var e := EntryFor(r, value, format, MaxVersion(t.history, r.key) + 1);
      ReplayWrite(t.history, r, e);
      assert Exec(s, t, r).0 == Tables(Some(|t.history| + 1), Replay(t.history + [e]), t.history + [e]);
      assert EntryValid(s, e);
      hide *;
      ConsistentAppend(s, t, e);
    }
  }

  lemma {:induction false} RunsAreConsistent(s: Syntax, rs: seq<Request>)
    ensures Consistent(s, ExecAll(s, MIGRATED, rs))
  {
    if rs != [] {
      RunsAreConsistent(s, rs[..|rs| - 1]);
      ExecKeepsConsistent(s, ExecAll(s, MIGRATED, rs[..|rs| - 1]), rs[|rs| - 1]);
    }
  }

  /** The entry that a write appends says what it did to the table: the row it stored or
      removed, by which operation, by whom and why. */
  ghost predicate Records(e: Entry, r: Request, before: map<string, Row>, after: map<string, Row>) {
    && (e.key, e.comment, e.author) == (r.key, r.change.comment, r.change.author)
    && (r.Set? <==> e.op == OpSet) && (r.Delete? <==> e.op == OpDelete) && (r.Rollback? <==> e.op == OpRollback)
    && (if r.Delete? then
          r.key in before && (before[r.key].value, before[r.key].format) == (e.value, e.format) && r.key !in after
        else Lookup(after, r.key) == Some(Row(e.value, e.format, e.author)))
    && forall k :: k != r.key ==> Lookup(after, k) == Lookup(before, k)
  }

  /** A write either changes nothing or appends one entry and raises the watermark by one;
      it reports exactly that revision and that version, and the entry records the one row
      that changed. */
  lemma ExecAppendsOne(s: Syntax, t: Tables, r: Request)
    requires Consistent(s, t)
    ensures var (t', res) := Exec(s, t, r);
            match res
            case Err(_) => t' == t
            case Ok(w) =>
              && |t'.history| == |t.history| + 1 && t'.history[..|t.history|] == t.history
              && t'.meta == Some(w.revision) && w.revision == |t'.history|
              && t'.history[|t.history|].version == w.version == Count(t'.history, r.key)
              && Records(t'.history[|t.history|], r, t.config, t'.config)
  {
    if Exec(s, t, r).1.Ok? {
      var h := Exec(s, t, r).0.history;
      assert h[..|t.history|] == t.history;
      MaxIsCount(t.history, r.key);
    }
  }

  // ---------------------------------------------------------------- undo

  /** A present key can always be deleted: only the audit fields can be refused. */
  lemma DeleteNeverRejected(s: Syntax, t: Tables, key: string, c: Change)
    requires Consistent(s, t)
    ensures key in t.config && ValidChange(c) <==> Exec(s, t, Delete(key, c)).1.Ok?
    ensures key in t.config && ValidChange(c) ==> Exec(s, t, Delete(key, c)).0.config == t.config - {key}
  {
    if key in t.config {
      ReplayedRow(t.history, key);
    }
  }

  /** A key can be rolled back to a version exactly when that version is recorded, whether
      or not the key still exists; the config row then holds the recorded value and format. */
  lemma RollbackNeverRejected(s: Syntax, t: Tables, key: string, v: int, c: Change)
    requires Consistent(s, t) && ValidChange(c)
    ensures (exists e :: e in t.history && e.key == key && e.version == v) <==>
            Exec(s, t, Rollback(key, v, c)).1.Ok?
    ensures forall e :: e in t.history && e.key == key && e.version == v ==>
                          Lookup(Exec(s, t, Rollback(key, v, c)).0.config, key) == Some(Row(e.value, e.format, c.author))
  {
    forall e | e in t.history && e.key == key && e.version == v
      ensures FindVersion(t.history, key, v) == Some(e) && EntryValid(s, e)
    {
      var found := FindVersion(t.history, key, v).value;
      OneEntryPerVersion(t.history, found, e);
    }
    match FindVersion(t.history, key, v)
    case None =>
    case Some(e) => assert EntryValid(s, e);
  }

  /** What each operation demands, and nothing more: valid audit fields always; a set also a
      valid key and value, raw if no format is given; a delete a present key; a rollback a
      recorded version. */
  lemma AcceptedExactlyWhen(s: Syntax, t: Tables, r: Request)
    requires Consistent(s, t)
    ensures Exec(s, t, r).1.Ok? <==>
            ValidChange(r.change) &&
            match r
            case Set(key, value, format, _) =>
              ValidKey(key) && ValidValue(s, value, if format == Other("") then Raw else format)
            case Delete(key, _) => key in t.config
            case Rollback(key, v, _) => exists e :: e in t.history && e.key == key && e.version == v
  {
    match r
    case Set(_, _, _, _) =>
    case Delete(key, c) => DeleteNeverRejected(s, t, key, c);
    case Rollback(key, v, c) =>
      if ValidChange(c) {
        RollbackNeverRejected(s, t, key, v, c);
      }
  }

  /** Why a request is refused, the first reason that applies; refused requests change nothing. */
  lemma RefusedExactlyWhen(s: Syntax, t: Tables, r: Request)
    requires Consistent(s, t)
    ensures var res := Exec(s, t, r).1;
            && (res == Err(InvalidKey) <==> !ValidKey(r.key))
            && (res == Err(InvalidChange) <==> ValidKey(r.key) && !ValidChange(r.change))
            && (res == Err(NotFound) <==>
                ValidKey(r.key) && ValidChange(r.change) &&
                match r
                case Set(_, _, _, _) => false
                case Delete(key, _) => key !in t.config
                case Rollback(key, v, _) => forall e :: e in t.history && e.key == key ==> e.version != v)
            && (res == Err(InvalidValue) <==>
                r.Set? && ValidKey(r.key) && ValidChange(r.change) &&
                !ValidValue(s, r.value, if r.format == Other("") then Raw else r.format))
            && res != Err(NotMigrated)
    ensures ValidKey(r.key) && ValidChange(r.change) ==> Exec(s, t.(meta := None), r) == (t.(meta := None), Err(NotMigrated))
  {
    match r
    case Set(_, _, _, _) =>
    case Delete(key, c) => DeleteNeverRejected(s, t, key, c);
    case Rollback(key, v, c) =>
      if ValidChange(c) {
        RollbackNeverRejected(s, t, key, v, c);
      }
  }

  /** The key then holds the value given. */
  lemma SetPublishes(s: Syntax, t: Tables, key: string, value: string, format: Format, c: Change)
    requires Exec(s, t, Set(key, value, format, c)).1.Ok?
    ensures Lookup(Exec(s, t, Set(key, value, format, c)).0.config, key) ==
            Some(Row(value, if format == Other("") then Raw else format, c.author))
  {
  }

  lemma {:induction false} CountGrows(h: seq<Entry>, key: string, i: nat, j: nat)
    requires i <= j <= |h|
    ensures Count(h[..i], key) <= Count(h[..j], key)
    decreases j - i
  {
    if i < j {
      CountGrows(h, key, i, j - 1);
      assert h[..j][..j - 1] == h[..j - 1];
    }
  }

  lemma VersionsIncrease(h: seq<Entry>, i: nat, j: nat)
    requires VersionsConsecutive(h) && i < j < |h| && h[i].key == h[j].key
    ensures h[i].version < h[j].version
  {
    CountGrows(h, h[i].key, i + 1, j);
    assert h[..i + 1][..i] == h[..i];
    assert Count(h[..i + 1], h[i].key) == Count(h[..i], h[i].key) + 1;
  }

  /** No two entries of a key carry the same version: the table's unique constraint holds. */
  lemma OneEntryPerVersion(h: seq<Entry>, d: Entry, e: Entry)
    requires VersionsConsecutive(h) && d in h && e in h && d.key == e.key && d.version == e.version
    ensures d == e
  {
    var i, j :| 0 <= i < |h| && 0 <= j < |h| && h[i] == d && h[j] == e;
    if i < j {
      VersionsIncrease(h, i, j);
    } else if j < i {
      VersionsIncrease(h, j, i);
    }
  }

  /** What a delete leaves behind: no row, and an entry with the row's value and format. */
  lemma DeleteRecordsRow(s: Syntax, t: Tables, key: string, c: Change)
    requires Consistent(s, t) && key in t.config && ValidChange(c)
    ensures var (t', r) := Exec(s, t, Delete(key, c));
            && r.Ok? && key !in t'.config && t'.config == t.config - {key} && Consistent(s, t')
            && |t'.history| == |t.history| + 1 && r.value.version == Count(t'.history, key)
            && var e := t'.history[|t.history|];
               e.key == key && e.version == r.value.version &&
               e.value == t.config[key].value && e.format == t.config[key].format
  {
    DeleteNeverRejected(s, t, key, c);
    var del := Delete(key, c);
    ExecKeepsConsistent(s, t, del);
    ExecAppendsOne(s, t, del);
  }

  lemma RollbackRestoresEntry(s: Syntax, t: Tables, key: string, e: Entry, c: Change)
    requires Consistent(s, t) && ValidChange(c) && e in t.history && e.key == key
    ensures var (t', r) := Exec(s, t, Rollback(key, e.version, c));
            && r.Ok? && r.value.version == Count(t.history, key) + 1
            && t'.config == t.config[key := Row(e.value, e.format, c.author)]
  {
    RollbackNeverRejected(s, t, key, e.version, c);
    MaxIsCount(t.history, key);
  }

  /** Deleting a key and rolling back to the delete's own version restores its value and format. */
  lemma DeleteThenRollbackRestores(s: Syntax, t: Tables, key: string, c1: Change, c2: Change)
    requires Consistent(s, t) && key in t.config && ValidChange(c1) && ValidChange(c2)
    ensures var (t1, r1) := Exec(s, t, Delete(key, c1));
            r1.Ok? && key !in t1.config &&
            var (t2, r2) := Exec(s, t1, Rollback(key, r1.value.version, c2));
            && r2.Ok? && r2.value.version == r1.value.version + 1
            && t2.config == t.config[key := Row(t.config[key].value, t.config[key].format, c2.author)]
  {
    hide Exec, Consistent, ValidChange, Count;
    DeleteRecordsRow(s, t, key, c1);
    var (t1, r1) := Exec(s, t, Delete(key, c1));
    var e := t1.history[|t.history|];
    RollbackRestoresEntry(s, t1, key, e, c2);
  }
}
