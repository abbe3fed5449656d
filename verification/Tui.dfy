/** The state machine of cmd/lsctl/internal/ui/model.go: selection, asynchronous responses,
    and the preview that every write must pass through. */
module Tui {
  import opened Basics
  import opened UnifiedText
  import opened Subsequences

  datatype Config = Config(key: string, value: string, format: string)

  datatype Version = Version(number: int, value: string, format: string)

  /** A line of the key pane: a group header or a key. */
  datatype Row = Row(header: bool, text: string, key: string)

  datatype Mode = Browse | Filter | Overlay

  datatype Pane = KeysPane | ValuePane | HistoryPane

  /** A write waiting for confirmation. */
  datatype Pending = PendSet(key: string, value: string, format: string) | PendRollback(key: string, version: int)

  /** What the overlay shows: help, a comparison, or the diff from the present value to the
      one that a write would store. */
  datatype Shown = Nothing | Help | Comparison(key: string, version: int) | Preview(write: Pending, was: string, becomes: string)

  datatype KeyPress = Named(name: string) | Runes(text: string)
  {
    function Name(): string { if Named? then name else text }
  }

  datatype Msg =
    | WindowSize(w: int, h: int)
    | KeysArrived(seqNo: nat, configs: seq<Config>, failed: bool)
    | DetailArrived(seqNo: nat, key: string, detail: Config, history: seq<Version>, failed: bool)
    | WriteDone(key: string, failed: bool)
    | Edited(key: string, format: string, value: string, failed: bool)
    | Press(k: KeyPress)

  datatype Cmd =
    | LoadKeys(seqNo: nat)
    | LoadDetail(seqNo: nat, key: string)
    | DoWrite(write: Pending)
    | StartEditor(key: string, format: string, value: string)
    | Quit

  /** The keys that close an overlay without writing. */
  const DISMISS := ["esc", "q", "n", "N"]

  const NO_CONFIG := Config("", "", "")

  // ---------------------------------------------------------------- rows

  /** strings.Contains. */
  predicate Contains(s: string, sub: string) {
    sub <= s || (s != "" && Contains(s[1..], sub))
  }

  lemma OccursLater(s: string, sub: string, i: nat)
    requires s != ""
    ensures OccursAt(s[1..], sub, i) <==> OccursAt(s, sub, i + 1)
  {
    if i + 1 + |sub| <= |s| {
      assert s[1..][i..i + |sub|] == s[i + 1..i + 1 + |sub|];
    }
  }

  lemma {:induction false} ContainsExactly(s: string, sub: string)
    ensures Contains(s, sub) <==> exists i: nat :: OccursAt(s, sub, i)
  {
    assert sub <= s <==> OccursAt(s, sub, 0);
    if s != "" {
      ContainsExactly(s[1..], sub);
      hide OccursAt;
      if Contains(s[1..], sub) {
        var i: nat :| OccursAt(s[1..], sub, i);
        OccursLater(s, sub, i);
      }
      forall i: nat | OccursAt(s, sub, i) ensures Contains(s, sub) {
        if i > 0 {
          OccursLater(s, sub, i - 1);
        }
      }
    }
  }

  predicate OccursAt(s: string, sub: string, i: nat) {
    i + |sub| <= |s| && s[i..i + |sub|] == sub
  }

  /** The keys that contain the filter, all of them and in their order. */
  lemma {:induction false} FilteredExactly(configs: seq<Config>, filter: string)
    ensures forall k: string :: k in Filtered(configs, filter) <==>
              (filter == "" || Contains(k, filter)) && exists c :: c in configs && c.key == k
    ensures IsSubsequence(Filtered(configs, filter), seq(|configs|, i requires 0 <= i < |configs| => configs[i].key))
  {
    if configs != [] {
      var init, last := configs[..|configs| - 1], configs[|configs| - 1];
      FilteredExactly(init, filter);
      var before := seq(|init|, i requires 0 <= i < |init| => init[i].key);
      var all := seq(|configs|, i requires 0 <= i < |configs| => configs[i].key);
      assert all == before + [last.key];
      assert forall c :: c in configs <==> c in init || c == last;
      SubsequenceSnoc(Filtered(init, filter), before, last.key);
      SubsequenceLonger(Filtered(init, filter), before, last.key);
      assert Filtered(init, filter) + [] == Filtered(init, filter);
    }
  }

  function Filtered(configs: seq<Config>, filter: string): seq<string> {
    if configs == [] then []
    else
      Filtered(configs[..|configs| - 1], filter) +
      if filter == "" || Contains(configs[|configs| - 1].key, filter) then [configs[|configs| - 1].key] else []
  }

  /** The keys of the selectable rows, in order. */
  function KeyRows(rows: seq<Row>): seq<string> {
    if rows == [] then []
    else KeyRows(rows[..|rows| - 1]) + if rows[|rows| - 1].header then [] else [rows[|rows| - 1].key]
  }

  /** The group of a row: its label, or the part of its key up to the first colon. */
  function GroupOf(r: Row): string { if r.header then r.text else SplitKey(r.key).0 }

  /** Row i is a header that starts the group of the key right after it, or shows the rest of
      its key under a row of the same group; only keys without a group need no such row. */
  ghost predicate RowPlaced(rows: seq<Row>, i: nat)
    requires i < |rows|
  {
    if rows[i].header then
      && i + 1 < |rows| && !rows[i + 1].header && rows[i].text == SplitKey(rows[i + 1].key).0 != ""
      && (i > 0 ==> GroupOf(rows[i - 1]) != rows[i].text)
    else
      && rows[i].text == SplitKey(rows[i].key).1
      && (GroupOf(rows[i]) != "" ==> i > 0 && GroupOf(rows[i - 1]) == GroupOf(rows[i]))
  }

  ghost predicate HeadersLead(rows: seq<Row>) {
    forall i :: 0 <= i < |rows| ==> RowPlaced(rows, i)
  }

  ghost predicate RowsFor(rows: seq<Row>, configs: seq<Config>, filter: string) {
    KeyRows(rows) == Filtered(configs, filter) && HeadersLead(rows)
  }

  /** The text up to and including the first colon, and the rest. */
  function SplitKey(k: string): (r: (string, string))
    ensures r.0 + r.1 == k
    ensures r.0 != "" <==> ':' in k
    ensures r.0 != "" ==> r.0[|r.0| - 1] == ':' && ':' !in r.0[..|r.0| - 1]
  {
    if ':' !in k then ("", k)
    else if k[0] == ':' then (":", k[1..])
    else
      var (g, leaf) := SplitKey(k[1..]);
      ([k[0]] + g, leaf)
  }

  method BuildRows(configs: seq<Config>, filter: string) returns (rows: seq<Row>)
    ensures RowsFor(rows, configs, filter)
  {
    rows := [];
    var last: Option<string> := None;
    for i := 0 to |configs|
      invariant RowsFor(rows, configs[..i], filter)
      invariant last == if rows == [] then None else Some(GroupOf(rows[|rows| - 1]))
    {
      assert configs[..i + 1][..i] == configs[..i];
      var key := configs[i].key;
      if filter != "" && !Contains(key, filter) {
        continue;
      }
      var (group, leaf) := SplitKey(key);
      var added := [Row(false, leaf, key)];
      if last != Some(group) {
        if group != "" {
          added := [Row(true, group, ""), Row(false, leaf, key)];
        }
        last := Some(group);
      }
      AddRows(rows, added, key);
      hide HeadersLead, KeyRows, SplitKey, Contains;
      rows := rows + added;
    }
    assert configs[..|configs|] == configs;
  }

  lemma AddRows(rows: seq<Row>, added: seq<Row>, key: string)
    requires HeadersLead(rows)
    requires
      var (group, leaf) := SplitKey(key);
      || (added == [Row(false, leaf, key)] && (group == "" || (rows != [] && GroupOf(rows[|rows| - 1]) == group)))
      || (added == [Row(true, group, ""), Row(false, leaf, key)] && group != "" &&
          (rows != [] ==> GroupOf(rows[|rows| - 1]) != group))
    ensures HeadersLead(rows + added) && KeyRows(rows + added) == KeyRows(rows) + [key]
  {
    RowsStayPlaced(rows, added, key);
    hide RowPlaced, SplitKey, GroupOf;
    var all := rows + added;
    assert all[..|all| - 1] == rows + added[..|added| - 1];
    if |added| == 2 {
      var init := rows + added[..1];
      assert init[..|init| - 1] == rows;
    } else {
      assert rows + added[..0] == rows;
    }
  }

  lemma RowsStayPlaced(rows: seq<Row>, added: seq<Row>, key: string)
    requires HeadersLead(rows)
    requires
      var (group, leaf) := SplitKey(key);
      || (added == [Row(false, leaf, key)] && (group == "" || (rows != [] && GroupOf(rows[|rows| - 1]) == group)))
      || (added == [Row(true, group, ""), Row(false, leaf, key)] && group != "" &&
          (rows != [] ==> GroupOf(rows[|rows| - 1]) != group))
    ensures HeadersLead(rows + added)
  {
    hide SplitKey;
    var all := rows + added;
    forall i | 0 <= i < |all| ensures RowPlaced(all, i) {
      if i < |rows| {
        assert RowPlaced(rows, i);
      }
    }
  }

  /** The first key row at or after a position. */
  function NextKeyRow(rows: seq<Row>, from: nat): (r: Option<nat>)
    requires from <= |rows|
    ensures r.Some? ==> from <= r.value < |rows| && !rows[r.value].header
    ensures forall i :: from <= i < (if r.Some? then r.value else |rows|) ==> rows[i].header
    decreases |rows| - from
  {
    if from == |rows| then None else if !rows[from].header then Some(from) else NextKeyRow(rows, from + 1)
  }

  /** The last key row before a position. */
  function PrevKeyRow(rows: seq<Row>, before: nat): (r: Option<nat>)
    requires before <= |rows|
    ensures r.Some? ==> r.value < before && !rows[r.value].header
    ensures forall i :: (if r.Some? then r.value + 1 else 0) <= i < before ==> rows[i].header
  {
    if before == 0 then None else if !rows[before - 1].header then Some(before - 1) else PrevKeyRow(rows, before - 1)
  }

  /** The first key row, or 0. */
  function FirstKeyRow(rows: seq<Row>): (i: nat)
    ensures HeadersLead(rows) && rows != [] ==> i < |rows| && !rows[i].header
    ensures forall j :: 0 <= j < i && j < |rows| ==> rows[j].header
    ensures rows == [] ==> i == 0
  {
    assert HeadersLead(rows) && rows != [] ==> RowPlaced(rows, |rows| - 1);
    match NextKeyRow(rows, 0)
    case Some(i) => i
    case None => 0
  }

  /** The last key row, or 0. */
  function LastKeyRow(rows: seq<Row>): (i: nat)
    ensures HeadersLead(rows) && rows != [] ==> i < |rows| && !rows[i].header
    ensures forall j :: i < j < |rows| && !rows[i].header ==> rows[j].header
    ensures rows == [] ==> i == 0
  {
    assert HeadersLead(rows) && rows != [] ==> RowPlaced(rows, |rows| - 1);
    match PrevKeyRow(rows, |rows|)
    case Some(i) => i
    case None => 0
  }

  /** Where one step down or up leads: the nearest key row that way, if any. */
  function NextCursor(rows: seq<Row>, cur: int, d: int): int {
    if cur < 0 || cur >= |rows| then cur
    else
      match if d == 1 then NextKeyRow(rows, cur + 1) else PrevKeyRow(rows, cur)
      case Some(i) => i
      case None => cur
  }

  /** The first row of a key, if it is shown. */
  function RowOf(rows: seq<Row>, key: string): (r: Option<nat>)
    ensures r.Some? ==> r.value < |rows| && !rows[r.value].header && rows[r.value].key == key && key != ""
  {
    if key == "" then None else FindRow(rows, key, 0)
  }

  function FindRow(rows: seq<Row>, key: string, from: nat): (r: Option<nat>)
    requires from <= |rows|
    ensures r.Some? ==> from <= r.value < |rows| && !rows[r.value].header && rows[r.value].key == key
    ensures forall i :: from <= i < (if r.Some? then r.value else |rows|) ==> rows[i].header || rows[i].key != key
    decreases |rows| - from
  {
    if from == |rows| then None
    else if !rows[from].header && rows[from].key == key then Some(from)
    else FindRow(rows, key, from + 1)
  }

  /** The cursor has gone from one row to the nearest key row that way, or stayed for lack of one. */
  ghost predicate Nearest(rows: seq<Row>, from: int, to: int, down: bool) {
    if down then from <= to && forall i :: 0 <= i && from < i < |rows| && (i < to || to == from) ==> rows[i].header
    else to <= from && forall i :: 0 <= i < from && i < |rows| && (i > to || to == from) ==> rows[i].header
  }

  /** The number from lo to hi that is nearest to v. */
  function Clamp(v: int, lo: int, hi: int): (r: int)
    ensures hi < lo ==> r == lo
    ensures lo <= hi ==> lo <= r <= hi && (v <= r || r == hi) && (v >= r || r == lo)
  {
    if hi < lo then lo else if v < lo then lo else if v > hi then hi else v
  }

  // ---------------------------------------------------------------- the model

  /** What the backend has recorded, for good: the value of every version of every key. */
  type Recorded = (string, int) -> string

  /** The backend answers the key asked, with values it has recorded. */
  ghost predicate Honest(m: Msg, recorded: Recorded) {
    m.DetailArrived? && !m.failed ==>
      && m.detail.key == m.key
      && forall i :: 0 <= i < |m.history| ==> m.history[i].value == recorded(m.key, m.history[i].number)
  }

  class Model {
    ghost const recorded: Recorded

    var configs: seq<Config>
    var rows: seq<Row>
    var cur: int
    var filter: string

    var detail: Config
    var hasDetail: bool
    var history: seq<Version>
    var hcur: int

    var focus: Pane
    var mode: Mode

    var keysSeq: nat
    var detailSeq: nat
    var detailKey: string
    var loadingKeys: bool
    var loadingDetail: bool

    var shown: Shown
    var pend: Option<Pending>

    function SelectedKey(): string
      reads this
    {
      if cur < 0 || cur >= |rows| then "" else rows[cur].key
    }

    /** The cursor is on a key whenever there is one. */
    ghost predicate CursorValid()
      reads this
    {
      && RowsFor(rows, configs, filter)
      && (if rows == [] then cur == 0 else 0 <= cur < |rows| && !rows[cur].header)
    }

    /** Detail and history belong to the key they are held for, and the version cursor is in range. */
    ghost predicate DetailValid()
      reads this
    {
      && (hasDetail ==> detail.key == detailKey)
      && (if history == [] then hcur == 0 else 0 <= hcur < |history|)
      && forall i :: 0 <= i < |history| ==> history[i].value == recorded(detailKey, history[i].number)
    }

    /** A write is pending only while its own preview is open, and that preview shows what
        the write will store. */
    ghost predicate PendingValid()
      reads this
    {
      && (mode == Overlay <==> shown != Nothing)
      && (pend.Some? <==> shown.Preview?)
      && (shown.Preview? ==> shown.write == pend.value && Faithful(shown))
    }

    ghost predicate Faithful(s: Shown)
      requires s.Preview?
    {
      match s.write
      case PendSet(_, value, _) => s.becomes == value
      case PendRollback(key, version) => s.becomes == recorded(key, version)
    }

    ghost predicate Valid()
      reads this
    {
      CursorValid() && DetailValid() && PendingValid() && detailKey == SelectedKey()
    }

    constructor (ghost recorded: Recorded)
      ensures Valid() && pend.None? && mode == Browse && this.recorded == recorded
    {
      this.recorded := recorded;
      configs, rows, cur, filter := [], [], 0, "";
      detail, hasDetail, history, hcur := NO_CONFIG, false, [], 0;
      focus, mode := KeysPane, Browse;
      keysSeq, detailSeq, detailKey, loadingKeys, loadingDetail := 0, 0, "", false, false;
      shown, pend := Nothing, None;
    }

    // ------------------------------------------------------------ loading

    method StartLoadKeys() returns (cmd: Cmd)
      requires Valid()
      modifies this`keysSeq, this`loadingKeys
      ensures Valid() && cmd == LoadKeys(keysSeq) && keysSeq == old(keysSeq) + 1
    {
      keysSeq := keysSeq + 1;
      loadingKeys := true;
      cmd := LoadKeys(keysSeq);
    }

    /** Asks for a key's detail; every earlier request becomes stale. */
    method StartLoadDetail(key: string) returns (cmd: Cmd)
      requires CursorValid() && PendingValid() && DetailValid() && key == SelectedKey()
      requires key != detailKey ==> !hasDetail && history == []
      modifies this`detailSeq, this`detailKey, this`loadingDetail
      ensures Valid() && cmd == LoadDetail(detailSeq, key) && detailSeq == old(detailSeq) + 1
    {
      detailSeq := detailSeq + 1;
      detailKey := key;
      loadingDetail := true;
      cmd := LoadDetail(detailSeq, key);
    }

    /** After the selection may have moved from prev: the old key's detail must not stay. */
    method SyncDetail(prev: string) returns (cmds: seq<Cmd>)
      requires CursorValid() && DetailValid() && PendingValid() && detailKey == prev
      modifies this`hcur, this`hasDetail, this`detail, this`history, this`detailSeq, this`detailKey, this`loadingDetail
      ensures Valid() && OnlyLoads(cmds)
      ensures SelectedKey() != prev ==> !hasDetail && history == []
      ensures if SelectedKey() == "" || (SelectedKey() == prev && old(hasDetail)) then cmds == []
              else cmds == [LoadDetail(detailSeq, SelectedKey())]
      ensures SelectedKey() == prev != "" && old(hasDetail) ==>
                hasDetail && detail == old(detail) && history == old(history) && hcur == old(hcur)
    {
      hide RowsFor, Faithful;
      var k := SelectedKey();
      if k == prev && (hasDetail || k == "") {
        return [];
      }
      hcur, hasDetail := 0, false;
      detail, history := NO_CONFIG, [];
      if k == "" {
        detailSeq := detailSeq + 1;
        detailKey := "";
        loadingDetail := false;
        return [];
      }
      var cmd := StartLoadDetail(k);
      cmds := [cmd];
    }

    /** Rows follow configs and filter; the selected key stays selected if it is still shown. */
    method Rebuild() returns (cmds: seq<Cmd>)
      requires DetailValid() && PendingValid() && detailKey == SelectedKey()
      modifies this`rows, this`cur, this`hcur, this`hasDetail, this`detail, this`history,
               this`detailSeq, this`detailKey, this`loadingDetail
      ensures Valid() && OnlyLoads(cmds)
      ensures old(SelectedKey()) in KeyRows(rows) && old(SelectedKey()) != "" ==> SelectedKey() == old(SelectedKey())
    {
      var prev := SelectedKey();
      rows := BuildRows(configs, filter);
      if prev != "" {
        ShownIsFound(rows, prev);
      }
      match RowOf(rows, prev) {
        case Some(i) => cur := i;
        case None => cur := FirstKeyRow(rows);
      }
      cmds := SyncDetail(prev);
    }

    // ------------------------------------------------------------ overlays

    method OpenOverlay(s: Shown, p: Option<Pending>)
      requires CursorValid() && DetailValid() && detailKey == SelectedKey()
      requires s != Nothing && (p.Some? <==> s.Preview?) && (s.Preview? ==> s.write == p.value && Faithful(s))
      modifies this`mode, this`shown, this`pend
      ensures Valid() && mode == Overlay && shown == s && pend == p
    {
      pend := p;
      mode := Overlay;
      shown := s;
    }

    method CloseOverlay()
      requires Valid()
      modifies this`mode, this`shown, this`pend
      ensures Valid() && mode == Browse && shown == Nothing && pend.None?
    {
      mode := Browse;
      shown := Nothing;
      pend := None;
    }

    /** Keys while an overlay is open. Only confirming a preview issues a write: exactly the
        pending one, once. */
    method OverlayKey(name: string) returns (cmds: seq<Cmd>)
      requires Valid() && mode == Overlay
      modifies this`mode, this`shown, this`pend
      ensures Valid()
      ensures if (name == "y" || name == "Y") && old(pend).Some? then cmds == [DoWrite(old(pend).value)] && pend.None?
              else NoWrites(cmds)
      ensures if name in ["esc", "q", "n", "N"] || ((name == "y" || name == "Y") && old(pend).Some?) then mode == Browse && pend.None?
              else pend == old(pend) && shown == old(shown) && mode == Overlay
    {
      cmds := [];
      if name == "y" || name == "Y" {
        if pend.None? {
          return [];
        }
        var p := pend.value;
        CloseOverlay();
        return [DoWrite(p)];
      }
      if name in DISMISS {
        CloseOverlay();
      }
    }

    method ShowDiff()
      requires Valid() && mode == Browse
      modifies this`mode, this`shown, this`pend
      ensures Valid() && pend.None?
      ensures if hasDetail && history != [] && !EqualUpToFinalNewline(history[hcur].value, detail.value)
              then shown == Comparison(SelectedKey(), history[hcur].number) else shown == Nothing
    {
      if !hasDetail || |history| == 0 {
        return;
      }
      var h := history[hcur];
      // The printed diff is empty exactly for texts that agree up to a final newline.
      if EqualUpToFinalNewline(h.value, detail.value) {
        return;
      }
      OpenOverlay(Comparison(detail.key, h.number), None);
    }

    /** Previews a rollback of the selected key to the selected version. */
    method AskRollback()
      requires Valid() && mode == Browse
      modifies this`mode, this`shown, this`pend
      ensures Valid()
      ensures pend.Some? ==>
                && hasDetail && 0 <= hcur < |history|
                && pend.value == PendRollback(SelectedKey(), history[hcur].number)
                && shown == Preview(pend.value, detail.value, history[hcur].value)
      ensures pend.Some? <==> hasDetail && history != [] &&
                              (!EqualUpToFinalNewline(detail.value, history[hcur].value) ||
                               detail.format != history[hcur].format)
    {
      if !hasDetail || |history| == 0 {
        return;
      }
      var h := history[hcur];
      var key := detail.key;
      if EqualUpToFinalNewline(detail.value, h.value) && detail.format == h.format {
        return;
      }
      var p := PendRollback(key, h.number);
      OpenOverlay(Preview(p, detail.value, h.value), Some(p));
    }

    /** The editor has returned: the edit is dropped if another key is selected by now, and
        previewed otherwise. */
    method AfterEdit(key: string, format: string, value: string, failed: bool)
      requires Valid()
      modifies this`mode, this`shown, this`pend
      ensures Valid()
      ensures failed || !hasDetail || key != SelectedKey() || EqualUpToFinalNewline(detail.value, value) ==>
                pend == old(pend) && shown == old(shown) && mode == old(mode)
      ensures !failed && hasDetail && key == SelectedKey() && !EqualUpToFinalNewline(detail.value, value) ==>
                && pend == Some(PendSet(key, value, format))
                && shown == Preview(pend.value, detail.value, value)
    {
      if failed {
        return;
      }
      if !hasDetail || key != detail.key {
        return;
      }
      if EqualUpToFinalNewline(detail.value, value) {
        return;
      }
      var p := PendSet(key, value, format);
      OpenOverlay(Preview(p, detail.value, value), Some(p));
    }

    // ------------------------------------------------------------ moving

    method ClampScroll()
      requires CursorValid() && PendingValid() && detailKey == SelectedKey()
      requires hasDetail ==> detail.key == detailKey
      requires forall i :: 0 <= i < |history| ==> history[i].value == recorded(detailKey, history[i].number)
      modifies this`hcur, this`cur
      ensures Valid() && cur == old(cur) && hcur == Clamp(old(hcur), 0, |history| - 1)
    {
      hcur := Clamp(hcur, 0, |history| - 1);
      cur := Clamp(cur, 0, |rows| - 1);
    }

    /** One key row up or down, over headers. */
    method MoveKeys(d: int) returns (cmds: seq<Cmd>)
      requires Valid() && (d == 1 || d == -1)
      modifies this`cur, this`hcur, this`hasDetail, this`detail, this`history, this`detailSeq, this`detailKey, this`loadingDetail
      ensures Valid() && OnlyLoads(cmds)
      ensures cur == NextCursor(rows, old(cur), d) && Nearest(rows, old(cur), cur, d == 1)
    {
      hide RowsFor, Faithful;
      var prev := SelectedKey();
      var i := cur + d;
      while 0 <= i < |rows|
        invariant rows != [] && d == 1 ==> cur < i <= |rows| && NextKeyRow(rows, i) == NextKeyRow(rows, cur + 1)
        invariant rows != [] && d == -1 ==> -1 <= i < cur && PrevKeyRow(rows, i + 1) == PrevKeyRow(rows, cur)
        decreases if d == 1 then |rows| - i else i + 1
      {
        if !rows[i].header {
          cur := i;
          cmds := SyncDetail(prev);
          return;
        }
        i := i + d;
      }
      cmds := [];
    }

    method Move(d: int) returns (cmds: seq<Cmd>)
      requires Valid() && (d == 1 || d == -1)
      modifies this`cur, this`hcur, this`hasDetail, this`detail, this`history, this`detailSeq, this`detailKey, this`loadingDetail
      ensures Valid() && OnlyLoads(cmds)
      ensures focus == KeysPane ==> cur == NextCursor(rows, old(cur), d)
      ensures Moved(d)
      ensures focus != KeysPane ==> SelectedKey() == old(SelectedKey())
      ensures focus == HistoryPane ==> hcur == Clamp(old(hcur) + d, 0, |history| - 1) && history == old(history)
    {
      if focus == KeysPane {
        cmds := MoveKeys(d);
        return;
      }
      if focus == HistoryPane {
        hcur := hcur + d;
      }
      ClampScroll();
      cmds := [];
    }

    method Jump(d: int) returns (cmds: seq<Cmd>)
      requires Valid()
      modifies this`cur, this`hcur, this`hasDetail, this`detail, this`history, this`detailSeq, this`detailKey, this`loadingDetail
      ensures Valid() && OnlyLoads(cmds)
      ensures focus == KeysPane ==> cur == if d < 0 then FirstKeyRow(rows) else LastKeyRow(rows)
      ensures focus == HistoryPane ==> hcur == (if d < 0 then 0 else Max(|history| - 1, 0)) && history == old(history)
      ensures Jumped(d)
    {
      hide RowsFor, Faithful;
      if focus == KeysPane {
        var prev := SelectedKey();
        cur := if d < 0 then FirstKeyRow(rows) else LastKeyRow(rows);
        cmds := SyncDetail(prev);
        return;
      }
      if focus == HistoryPane {
        hcur := if d < 0 then 0 else |history|;
      }
      ClampScroll();
      cmds := [];
    }

    // ------------------------------------------------------------ keys

    method Focus(p: Pane)
      requires Valid()
      modifies this`focus
      ensures Valid() && focus == p
    {
      focus := p;
    }

    method BeginFilter()
      requires Valid() && mode == Browse
      modifies this`mode
      ensures Valid() && mode == Filter
    {
      mode := Filter;
    }

    method DropFilter() returns (cmds: seq<Cmd>)
      requires Valid()
      modifies this`filter, this`rows, this`cur, this`hcur, this`hasDetail, this`detail, this`history,
               this`detailSeq, this`detailKey, this`loadingDetail
      ensures Valid() && OnlyLoads(cmds) && filter == ""
    {
      if filter == "" {
        return [];
      }
      filter := "";
      cmds := Rebuild();
    }

    /** One step of the focused pane; d is 1 for down. */
    twostate predicate Moved(d: int)
      reads this
    {
      && (focus == KeysPane ==> rows == old(rows) && Nearest(rows, old(cur), cur, d == 1))
      && (focus != KeysPane ==> cur == old(cur) && rows == old(rows))
      && (focus == HistoryPane ==>
            history == old(history) && hcur == if 0 <= old(hcur) + d < |history| then old(hcur) + d else old(hcur))
    }

    /** To the first or last entry of the focused pane. */
    twostate predicate Jumped(d: int)
      reads this
    {
      && rows == old(rows)
      && (focus == KeysPane ==> forall i :: 0 <= i < |rows| && (if d < 0 then i < cur else i > cur) ==> rows[i].header)
      && (focus != KeysPane ==> cur == old(cur))
      && (focus == HistoryPane ==>
            history == old(history) && (history != [] ==> hcur == if d < 0 then 0 else |history| - 1))
    }

    /** What each action does while browsing. */
    twostate predicate Does(a: BrowseAction, cmds: seq<Cmd>)
      reads this
    {
      match a
      case Leave => cmds == [Quit]
      case OpenHelp => mode == Overlay && shown == Help
      case FocusNext =>
        && (old(focus) == KeysPane ==> focus == ValuePane)
        && (old(focus) == ValuePane ==> focus == HistoryPane)
        && (old(focus) == HistoryPane ==> focus == KeysPane)
      case FocusPrev =>
        && (old(focus) == ValuePane ==> focus == KeysPane)
        && (old(focus) == HistoryPane ==> focus == ValuePane)
        && (old(focus) == KeysPane ==> focus == HistoryPane)
      case StartFilter => mode == Filter && filter == old(filter)
      case ClearFilter => mode == Browse && filter == ""
      case Reload =>
        cmds == [LoadKeys(keysSeq)] + if SelectedKey() == "" then [] else [LoadDetail(detailSeq, SelectedKey())]
      case Step(d) => focus == old(focus) && Moved(d)
      case Edge(d) => focus == old(focus) && Jumped(d)
      case Edit => cmds == if hasDetail then [StartEditor(SelectedKey(), detail.format, detail.value)] else []
      case Compare =>
        hasDetail && 0 <= hcur < |history| && !EqualUpToFinalNewline(history[hcur].value, detail.value) ==>
          shown == Comparison(SelectedKey(), history[hcur].number)
      case Enter =>
        if old(focus) != HistoryPane then focus == HistoryPane && cmds == [] && pend == old(pend)
        else
          hasDetail && 0 <= hcur < |history| &&
          (!EqualUpToFinalNewline(detail.value, history[hcur].value) || detail.format != history[hcur].format) ==>
            pend == Some(PendRollback(SelectedKey(), history[hcur].number))
      case Ignore => cmds == [] && cur == old(cur) && mode == old(mode) && pend == old(pend)
    }

    method BrowseKey(name: string) returns (cmds: seq<Cmd>)
      requires Valid() && mode == Browse
      modifies this
      ensures Valid() && NoWrites(cmds)
      ensures pend.Some? ==> name == "enter" && old(focus) == HistoryPane
      ensures Does(ActionOf(name), cmds)
      ensures name == "enter" && old(focus) != HistoryPane ==> focus == HistoryPane && cmds == []
      ensures name == "e" ==> cmds == if hasDetail then [StartEditor(SelectedKey(), detail.format, detail.value)] else []
      ensures name == "q" ==> cmds == [Quit]
      ensures name != "e" && name != "q" ==> OnlyLoads(cmds)
    {
      hide ActionOf, Nearest, RowsFor, Faithful;
      cmds := [];
      match ActionOf(name) {
        case Leave => cmds := [Quit];
        case OpenHelp => OpenOverlay(Help, None);
        case FocusNext => Focus(NextPane(focus));
        case FocusPrev => Focus(PrevPane(focus));
        case StartFilter => BeginFilter();
        case ClearFilter => cmds := DropFilter();
        case Reload => cmds := Refresh();
        case Step(d) => cmds := Move(d);
        case Edge(d) => cmds := Jump(d);
        case Edit =>
          if hasDetail {
            cmds := [StartEditor(detail.key, detail.format, detail.value)];
          }
        case Compare => ShowDiff();
        case Enter =>
          if focus != HistoryPane {
            Focus(HistoryPane);
          } else {
            AskRollback();
          }
        case Ignore =>
      }
    }

    method Refresh() returns (cmds: seq<Cmd>)
      requires Valid()
      modifies this`keysSeq, this`loadingKeys, this`detailSeq, this`detailKey, this`loadingDetail
      ensures Valid() && OnlyLoads(cmds) && keysSeq == old(keysSeq) + 1
      ensures cmds == [LoadKeys(keysSeq)] + if SelectedKey() == "" then [] else [LoadDetail(detailSeq, SelectedKey())]
    {
      var keys := StartLoadKeys();
      cmds := [keys];
      if SelectedKey() != "" {
        var detailCmd := StartLoadDetail(SelectedKey());
        cmds := cmds + [detailCmd];
      }
    }

    /** What each key does to the filter; the rows follow it. */
    twostate predicate Filtering(k: KeyPress, cmds: seq<Cmd>)
      reads this
    {
      && (k == Named("esc") ==> mode == Browse && filter == "")
      && (k == Named("enter") ==> mode == Browse && filter == old(filter) && rows == old(rows) && cmds == [])
      && (k != Named("esc") && k != Named("enter") ==> mode == Filter)
      && (k.Runes? ==> filter == old(filter) + k.text)
      && (k == Named(" ") ==> filter == old(filter) + " ")
      && (k == Named("backspace") && old(filter) != "" ==> filter == old(filter)[..|old(filter)| - 1])
    }

    /** What a key does in each mode. */
    twostate predicate Pressed(k: KeyPress, cmds: seq<Cmd>)
      reads this
    {
      if k == Named("ctrl+c") then cmds == [Quit] && mode == old(mode) && pend == old(pend)
      else
        match old(mode)
        case Browse => Does(ActionOf(k.Name()), cmds)
        case Filter => Filtering(k, cmds)
        case Overlay =>
          && (k.Name() in ["esc", "q", "n", "N"] ==> mode == Browse && pend.None?)
          && (k.Name() !in ["esc", "q", "n", "N", "y", "Y"] ==> mode == Overlay && shown == old(shown) && pend == old(pend))
    }

    method FilterKey(k: KeyPress) returns (cmds: seq<Cmd>)
      requires Valid() && mode == Filter
      modifies this
      ensures Valid() && OnlyLoads(cmds) && pend.None?
      ensures Filtering(k, cmds)
    {
      cmds := [];
      if k.Runes? {
        filter := filter + k.text;
        cmds := Rebuild();
      } else if k.name == "esc" {
        mode := Browse;
        if filter != "" {
          filter := "";
          cmds := Rebuild();
        }
      } else if k.name == "enter" {
        mode := Browse;
      } else if k.name == "backspace" {
        if |filter| > 0 {
          filter := filter[..|filter| - 1];
          cmds := Rebuild();
        }
      } else if k.name == " " {
        filter := filter + " ";
        cmds := Rebuild();
      }
    }

    method OnKey(k: KeyPress) returns (cmds: seq<Cmd>)
      requires Valid()
      modifies this
      ensures Valid()
      ensures if Confirms(old(mode), old(pend), Press(k)) then cmds == [DoWrite(old(pend).value)] && pend.None?
              else NoWrites(cmds)
      ensures Pressed(k, cmds)
      ensures pend.Some? && pend != old(pend) ==> AsksRollback(old(mode), old(focus), Press(k))
    {
      hide ActionOf, Does, Filtering, RowsFor, Faithful;
      if k == Named("ctrl+c") {
        return [Quit];
      }
      match mode {
        case Filter => cmds := FilterKey(k);
        case Overlay => cmds := OverlayKey(k.Name());
        case Browse => cmds := BrowseKey(k.Name());
      }
    }

    // ------------------------------------------------------------ messages

    method KeysResponse(seqNo: nat, newConfigs: seq<Config>, failed: bool) returns (cmds: seq<Cmd>)
      requires Valid()
      modifies this`configs, this`rows, this`cur, this`hcur, this`hasDetail, this`detail, this`history,
               this`detailSeq, this`detailKey, this`loadingDetail, this`loadingKeys
      ensures Valid() && NoWrites(cmds)
      ensures seqNo != keysSeq || failed ==> cmds == [] && configs == old(configs) && rows == old(rows) && cur == old(cur)
      ensures seqNo == keysSeq && !failed ==> configs == newConfigs
      ensures seqNo == keysSeq && !failed && old(SelectedKey()) in KeyRows(rows) && old(SelectedKey()) != "" ==>
                SelectedKey() == old(SelectedKey())
    {
      if seqNo != keysSeq {
        return [];
      }
      loadingKeys := false;
      if failed {
        return [];
      }
      configs := newConfigs;
      cmds := Rebuild();
    }

    /** Only the answer to the latest request, for the key still selected, is shown. */
    method DetailResponse(seqNo: nat, key: string, newDetail: Config, newHistory: seq<Version>, failed: bool)
      requires Valid() && Honest(DetailArrived(seqNo, key, newDetail, newHistory, failed), recorded)
      modifies this`hcur, this`hasDetail, this`detail, this`history, this`loadingDetail
      ensures Valid()
      ensures seqNo != detailSeq || key != SelectedKey() ==>
                detail == old(detail) && history == old(history) && hasDetail == old(hasDetail) && hcur == old(hcur)
      ensures seqNo == detailSeq && key == SelectedKey() && !failed ==>
                hasDetail && detail == newDetail && history == newHistory && hcur == 0
      ensures seqNo == detailSeq && key == SelectedKey() && failed ==> !hasDetail
    {
      if seqNo != detailSeq || key != detailKey {
        return;
      }
      loadingDetail := false;
      if failed {
        hasDetail := false;
        return;
      }
      detail, history, hasDetail := newDetail, newHistory, true;
      hcur := 0;
    }

    /** A finished write reloads the keys, and the detail only of a key still selected. */
    method WriteResponse(key: string, failed: bool) returns (cmds: seq<Cmd>)
      requires Valid()
      modifies this`keysSeq, this`loadingKeys, this`detailSeq, this`detailKey, this`loadingDetail
      ensures Valid() && NoWrites(cmds)
      ensures failed ==> cmds == [] && keysSeq == old(keysSeq) && detailSeq == old(detailSeq)
      ensures !failed ==> keysSeq == old(keysSeq) + 1
      ensures !failed ==>
                cmds == [LoadKeys(keysSeq)] + if key == SelectedKey() then [LoadDetail(detailSeq, key)] else []
    {
      if failed {
        return [];
      }
      var keys := StartLoadKeys();
      cmds := [keys];
      if key == SelectedKey() {
        var detailCmd := StartLoadDetail(key);
        cmds := cmds + [detailCmd];
      }
    }

    /** One message. Only a confirmed preview is written, and responses never touch a
        pending write or its preview, even if they move the selection. */
    method Update(msg: Msg) returns (cmds: seq<Cmd>)
      requires Valid() && Honest(msg, recorded)
      modifies this
      ensures Valid()
      ensures if Confirms(old(mode), old(pend), msg) then cmds == [DoWrite(old(pend).value)] && pend.None?
              else NoWrites(cmds)
      ensures !msg.Press? && !msg.Edited? ==> pend == old(pend) && shown == old(shown) && mode == old(mode)
      ensures msg.DetailArrived? && (msg.seqNo != old(detailSeq) || msg.key != old(SelectedKey())) ==>
                detail == old(detail) && history == old(history) && hasDetail == old(hasDetail)
      ensures msg.KeysArrived? && msg.seqNo != old(keysSeq) ==> configs == old(configs) && rows == old(rows)
      ensures msg.KeysArrived? && msg.seqNo == old(keysSeq) && !msg.failed ==> configs == msg.configs
      ensures msg.DetailArrived? && msg.seqNo == old(detailSeq) && msg.key == old(SelectedKey()) ==>
                if msg.failed then !hasDetail else hasDetail && detail == msg.detail && history == msg.history
      ensures msg.WriteDone? && !msg.failed ==>
                cmds == [LoadKeys(keysSeq)] + if msg.key == SelectedKey() then [LoadDetail(detailSeq, msg.key)] else []
      ensures msg.Edited? && !msg.failed && old(hasDetail) && msg.key == old(SelectedKey()) &&
              !EqualUpToFinalNewline(old(detail).value, msg.value) ==>
                pend == Some(PendSet(msg.key, msg.value, msg.format))
      ensures msg.Press? ==> Pressed(msg.k, cmds)
      ensures pend.Some? && pend != old(pend) ==> msg.Edited? || AsksRollback(old(mode), old(focus), msg)
    {
      hide Pressed, RowsFor, Faithful;
      cmds := [];
      match msg {
        case WindowSize(_, _) => ClampScroll();
        case KeysArrived(seqNo, newConfigs, failed) => cmds := KeysResponse(seqNo, newConfigs, failed);
        case DetailArrived(seqNo, key, newDetail, newHistory, failed) =>
          DetailResponse(seqNo, key, newDetail, newHistory, failed);
        case WriteDone(key, failed) => cmds := WriteResponse(key, failed);
        case Edited(key, format, value, failed) => AfterEdit(key, format, value, failed);
        case Press(k) => cmds := OnKey(k);
      }
    }
  }

  /** The key bindings of the browsing mode. */
  datatype BrowseAction =
    | Leave | OpenHelp | FocusNext | FocusPrev | StartFilter | ClearFilter | Reload
    | Step(d: int) | Edge(d: int) | Edit | Compare | Enter | Ignore

  function ActionOf(name: string): (a: BrowseAction)
    ensures a.Step? || a.Edge? ==> a.d == 1 || a.d == -1
    ensures (a == Enter <==> name == "enter") && (a == Edit <==> name == "e") && (a == Leave <==> name == "q")
  {
    match name
    case "q" => Leave
    case "?" => OpenHelp
    case "tab" => FocusNext
    case "l" => FocusNext
    case "right" => FocusNext
    case "shift+tab" => FocusPrev
    case "h" => FocusPrev
    case "left" => FocusPrev
    case "/" => StartFilter
    case "esc" => ClearFilter
    case "r" => Reload
    case "j" => Step(1)
    case "down" => Step(1)
    case "k" => Step(-1)
    case "up" => Step(-1)
    case "g" => Edge(-1)
    case "home" => Edge(-1)
    case "G" => Edge(1)
    case "end" => Edge(1)
    case "e" => Edit
    case "d" => Compare
    case "enter" => Enter
    case _ => Ignore
  }

  const BOUND := ["q", "?", "/", "esc", "r", "tab", "l", "right", "shift+tab", "h", "left",
                  "j", "down", "k", "up", "g", "home", "G", "end", "e", "d", "enter"]

  /** The keys of the browsing mode. */
  lemma KeyBindings()
    ensures ActionOf("q") == Leave && ActionOf("?") == OpenHelp && ActionOf("/") == StartFilter
    ensures ActionOf("esc") == ClearFilter && ActionOf("r") == Reload
    ensures ActionOf("tab") == ActionOf("l") == ActionOf("right") == FocusNext
    ensures ActionOf("shift+tab") == ActionOf("h") == ActionOf("left") == FocusPrev
    ensures ActionOf("j") == ActionOf("down") == Step(1) && ActionOf("k") == ActionOf("up") == Step(-1)
    ensures ActionOf("g") == ActionOf("home") == Edge(-1) && ActionOf("G") == ActionOf("end") == Edge(1)
    ensures ActionOf("e") == Edit && ActionOf("d") == Compare && ActionOf("enter") == Enter
    ensures forall name: string :: name !in BOUND ==> ActionOf(name) == Ignore
  {
  }

  function NextPane(p: Pane): Pane {
    match p
    case KeysPane => ValuePane
    case ValuePane => HistoryPane
    case HistoryPane => KeysPane
  }

  function PrevPane(p: Pane): Pane { NextPane(NextPane(p)) }

  predicate OnlyLoads(cmds: seq<Cmd>) {
    forall i :: 0 <= i < |cmds| ==> cmds[i].LoadKeys? || cmds[i].LoadDetail?
  }

  predicate NoWrites(cmds: seq<Cmd>) { forall i :: 0 <= i < |cmds| ==> !cmds[i].DoWrite? }

  /** Enter in the history pane; an Enter anywhere else never leads to a rollback. */
  predicate AsksRollback(mode: Mode, focus: Pane, msg: Msg) {
    mode == Browse && focus == HistoryPane && msg.Press? && msg.k.Name() == "enter"
  }

  /** The message is the confirmation of an open preview. */
  predicate Confirms(mode: Mode, pend: Option<Pending>, msg: Msg) {
    mode == Overlay && pend.Some? && msg.Press? && (msg.k.Name() == "y" || msg.k.Name() == "Y")
  }

  lemma {:induction false} KeyRowsAt(rows: seq<Row>, key: string)
    ensures key in KeyRows(rows) <==> exists i :: 0 <= i < |rows| && !rows[i].header && rows[i].key == key
  {
    if rows != [] {
      var init := rows[..|rows| - 1];
      KeyRowsAt(init, key);
      if key in KeyRows(init) {
        var i :| 0 <= i < |init| && !init[i].header && init[i].key == key;
        assert !rows[i].header && rows[i].key == key;
      }
      if exists i :: 0 <= i < |rows| && !rows[i].header && rows[i].key == key {
        var i :| 0 <= i < |rows| && !rows[i].header && rows[i].key == key;
        if i < |init| {
          assert !init[i].header && init[i].key == key;
        }
      }
    }
  }

  lemma {:induction false} FindRowFinds(rows: seq<Row>, key: string, from: nat, i: nat)
    requires from <= i < |rows| && !rows[i].header && rows[i].key == key
    ensures FindRow(rows, key, from).Some?
    decreases |rows| - from
  {
    if rows[from].header || rows[from].key != key {
      FindRowFinds(rows, key, from + 1, i);
    }
  }

  lemma ShownIsFound(rows: seq<Row>, key: string)
    requires key != ""
    ensures key in KeyRows(rows) ==> RowOf(rows, key).Some?
  {
    KeyRowsAt(rows, key);
    if key in KeyRows(rows) {
      var i :| 0 <= i < |rows| && !rows[i].header && rows[i].key == key;
      FindRowFinds(rows, key, 0, i);
    }
  }

  // ---------------------------------------------------------------- whole sessions

  /** The writes that a list of previews offered. */
  ghost function Offered(previews: seq<Shown>): (writes: seq<Pending>)
    requires AllPreviews(previews)
    ensures |writes| == |previews|
  {
    seq(|previews|, i requires 0 <= i < |previews| => previews[i].write)
  }

  ghost predicate AllPreviews(previews: seq<Shown>) {
    forall i :: 0 <= i < |previews| ==> previews[i].Preview?
  }

  /** The writes issued are some of those offered, each for a preview of its own, in order;
      an open preview is the last one and has not been used. */
  ghost predicate Matched(writes: seq<Pending>, previews: seq<Shown>, open: Option<Pending>) {
    && AllPreviews(previews)
    && match open
       case None => IsSubsequence(writes, Offered(previews))
       case Some(w) => previews != [] && previews[|previews| - 1].write == w &&
                       IsSubsequence(writes, Offered(previews[..|previews| - 1]))
  }

  /** An open preview is confirmed, or dismissed. */
  lemma Resolved(writes: seq<Pending>, previews: seq<Shown>, w: Pending)
    requires Matched(writes, previews, Some(w))
    ensures Matched(writes + [w], previews, None) && Matched(writes, previews, None)
  {
    hide IsSubsequence;
    var earlier := Offered(previews[..|previews| - 1]);
    assert Offered(previews) == earlier + [w];
    SubsequenceSnoc(writes, earlier, w);
    SubsequenceLonger(writes, earlier, w);
  }

  lemma Opened(writes: seq<Pending>, previews: seq<Shown>, s: Shown)
    requires Matched(writes, previews, None) && s.Preview?
    ensures Matched(writes, previews + [s], Some(s.write))
  {
    assert (previews + [s])[..|previews|] == previews;
  }

  /** Any sequence of messages, in any order: the model stays valid throughout, a preview
      shows what its write would store, and every write is the confirmation of a preview of
      its own, in order. */
  method Session(m: Model, msgs: seq<Msg>) returns (writes: seq<Pending>, ghost previews: seq<Shown>)
    requires m.Valid() && m.pend.None?
    requires forall i :: 0 <= i < |msgs| ==> Honest(msgs[i], m.recorded)
    modifies m
    ensures m.Valid()
    ensures forall i :: 0 <= i < |previews| ==> previews[i].Preview? && m.Faithful(previews[i])
    ensures Matched(writes, previews, m.pend)
  {
    writes, previews := [], [];
    for n := 0 to |msgs|
      invariant m.Valid()
      invariant forall i :: 0 <= i < |previews| ==> previews[i].Preview? && m.Faithful(previews[i])
      invariant Matched(writes, previews, m.pend)
    {
      hide Matched;
      ghost var before := m.pend;
      var cmds := m.Update(msgs[n]);
      if before.Some? && m.pend != before {
        Resolved(writes, previews, before.value);
      }
      if |cmds| > 0 && cmds[0].DoWrite? {
        writes := writes + [cmds[0].write];
      }
      if m.pend.Some? && m.pend != before {
        Opened(writes, previews, m.shown);
        previews := previews + [m.shown];
      }
    }
  }
}
