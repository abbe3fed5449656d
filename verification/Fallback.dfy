/** The fallback file of client/fallback.go as file-system steps that can fail or be cut
    short by a crash, and when the file follows the current snapshot. */
module Fallback {
  import opened Basics
  import opened Views

  /** A file holds one complete encoded snapshot, or something that does not parse. */
  datatype File = Whole(snapshot: Snapshot) | Torn

  /** What happens to one write: all steps succeed, or the operating system reports an
      error at a step, or the process dies there. Steps: 1 create the directory, 2 encode,
      3 open and truncate the temporary file, 4 fill it, 5 rename it, 6 restrict its mode. */
  datatype Fate = AllGood | FailsAt(step: nat) | CrashesAt(step: nat)

  datatype Outcome = Written | Failed | Crashed

  predicate HitsAt(fate: Fate, step: nat) { fate != AllGood && fate.step == step }

  /** The write succeeds as a whole. */
  predicate Succeeds(fate: Fate) { fate == AllGood || fate.step == 0 || fate.step > 6 }

  /** The rename has happened, whether or not the last step then went well. */
  predicate Replaces(fate: Fate) { Succeeds(fate) || fate.step == 6 }

  function Read(files: map<string, File>, path: string): Option<File> {
    if path in files then Some(files[path]) else None
  }

  function TempPath(path: string): string { path + ".tmp" }

  class Disk {
    var files: map<string, File>

    constructor (files: map<string, File>)
      ensures this.files == files
    {
      this.files := files;
    }

    /** Write to a temporary file, then rename. Whatever happens, the path holds its old
        file or the complete new one; the rename decides which. */
    method WriteFallback(path: string, v: View, fate: Fate) returns (out: Outcome)
      requires WellFormed(v)
      modifies this
      ensures out == if Succeeds(fate) then Written else if fate.FailsAt? then Failed else Crashed
      ensures if Replaces(fate) then exists s :: IsWireOf(s, v) && Read(files, path) == Some(Whole(s))
              else Read(files, path) == Read(old(files), path)
      ensures forall p :: p != path && p != path + ".tmp" ==> Read(files, p) == Read(old(files), p)
      ensures Replaces(fate) || fate == FailsAt(5) ==> path + ".tmp" !in files
    {
      var stopped := if fate.FailsAt? then Failed else Crashed;
      assert |TempPath(path)| == |path| + 4;
      if HitsAt(fate, 1) { return stopped; }
      if HitsAt(fate, 2) { return stopped; }
      var wire := ToWire(v);
      var tmp := TempPath(path);
      if HitsAt(fate, 3) { return stopped; }
      files := files[tmp := Torn];
      if HitsAt(fate, 4) { return stopped; }
      files := files[tmp := Whole(wire)];
      if HitsAt(fate, 5) {
        if fate.FailsAt? {
          files := files - {tmp};
        }
        return stopped;
      }
      files := (files - {tmp})[path := Whole(wire)];
      if HitsAt(fate, 6) { return stopped; }
      out := Written;
    }

    /** A view of the file, if it is there and parses. */
    method ReadFallback(path: string) returns (r: Option<View>)
      ensures r.Some? <==> Read(files, path).Some? && Read(files, path).value.Whole?
      ensures r.Some? ==> IsViewOf(r.value, files[path].snapshot) && WellFormed(r.value)
    {
      if path !in files || files[path].Torn? {
        return None;
      }
      var v := NewView(files[path].snapshot);
      r := Some(v);
    }
  }

  // ---------------------------------------------------------------- when the file is current

  type Entries = map<string, Config>

  /** The installed entries, whether a write has ever succeeded, and the entries in the file. */
  datatype Mirror = Mirror(shown: Entries, seeded: bool, stored: Option<Entries>)

  predicate Attempts(m: Mirror, next: Entries) { m.shown != next || !m.seeded }

  /** One applied snapshot: the file is written when entries changed or none was ever written. */
  function ApplyOne(m: Mirror, next: Entries, fate: Fate): Mirror {
    if Attempts(m, next) then
      Mirror(next, m.seeded || Succeeds(fate), if Replaces(fate) then Some(next) else m.stored)
    else m.(shown := next)
  }

  function ApplyMany(m: Mirror, steps: seq<(Entries, Fate)>): Mirror {
    if steps == [] then m
    else ApplyOne(ApplyMany(m, steps[..|steps| - 1]), steps[|steps| - 1].0, steps[|steps| - 1].1)
  }

  ghost predicate FileCurrent(m: Mirror) { m.stored == Some(m.shown) }

  /** On runs where no write fails the file holds the current entries after every apply,
      even the first one and even if those entries are none. */
  lemma {:induction false} FileFollows(m: Mirror, steps: seq<(Entries, Fate)>)
    requires m.seeded ==> FileCurrent(m)
    requires forall i :: 0 <= i < |steps| ==> Succeeds(steps[i].1)
    ensures steps != [] ==> FileCurrent(ApplyMany(m, steps)) && ApplyMany(m, steps).seeded
  {
    if |steps| > 1 {
      FileFollows(m, steps[..|steps| - 1]);
    }
  }

  /** After a write that left the file behind, fetching the same entries again repairs it
      with a good write exactly if no write had ever succeeded. */
  lemma RetriedOnlyUntilSeeded(m: Mirror, next: Entries, bad: Fate, good: Fate)
    requires Attempts(m, next) && !Replaces(bad) && Succeeds(good) && m.stored != Some(next)
    ensures FileCurrent(ApplyOne(ApplyOne(m, next, bad), next, good)) <==> !m.seeded
  {
  }

  /** In that case no number of fetches of the same entries repairs the file. */
  lemma {:induction false} StaleUntilNextChange(m: Mirror, next: Entries, bad: Fate, again: seq<(Entries, Fate)>)
    requires m.seeded && m.shown != next && !Replaces(bad) && m.stored != Some(next)
    requires forall i :: 0 <= i < |again| ==> again[i].0 == next
    ensures ApplyMany(ApplyOne(m, next, bad), again) == ApplyOne(m, next, bad)
    ensures !FileCurrent(ApplyMany(ApplyOne(m, next, bad), again))
  {
    if again != [] {
      StaleUntilNextChange(m, next, bad, again[..|again| - 1]);
    }
  }
}
