/** The manifest and the progress of a streamed export, from apps/desktop/src/WindowsVirtualFileDrag.cpp. */
module ExportProgress {
  import opened Packable

  datatype Entry = Entry(size: u64, directory: bool)

  function Sum(values: seq<nat>): nat {
    if values == [] then 0 else Sum(values[..|values| - 1]) + values[|values| - 1]
  }

  /** How much of an entry is transferred. */
  function Share(e: Entry): nat {
    if e.directory then 0 else e.size
  }

  function Shares(entries: seq<Entry>): (s: seq<nat>)
    ensures |s| == |entries|
  {
    seq(|entries|, i requires 0 <= i < |entries| => Share(entries[i]))
  }

  function Total(entries: seq<Entry>): nat {
    Sum(Shares(entries))
  }

  function Max(a: nat, b: nat): nat {
    if a < b then b else a
  }

  function Min(a: nat, b: nat): nat {
    if a < b then a else b
  }

  /** std::vector::resize. */
  function Resized(positions: seq<nat>, n: nat): (r: seq<nat>)
    ensures |r| == n
  {
    if |positions| == n then positions else seq(n, i requires 0 <= i < n => if i < |positions| then positions[i] else 0)
  }

  function Reported(positions: seq<nat>, entries: seq<Entry>, index: nat, position: nat): (r: seq<nat>)
    requires index < |entries|
    ensures |r| == |entries|
  {
    var p := Resized(positions, |entries|);
    p[index := Max(p[index], Min(entries[index].size, position))]
  }

  // ---------------------------------------------------------------------------------------
  // Sums
  // ---------------------------------------------------------------------------------------

  predicate Below(a: seq<nat>, b: seq<nat>) {
    |a| == |b| && forall i :: 0 <= i < |a| ==> a[i] <= b[i]
  }

  lemma {:induction false} SumMonotone(a: seq<nat>, b: seq<nat>)
    requires Below(a, b)
    ensures Sum(a) <= Sum(b)
  {
    if a != [] {
      SumMonotone(a[..|a| - 1], b[..|b| - 1]);
    }
  }

  lemma {:induction false} SumOneMore(values: seq<nat>, k: nat)
    requires k < |values|
    ensures Sum(values[..k + 1]) == Sum(values[..k]) + values[k]
  {
    assert values[..k + 1][..k] == values[..k];
  }

  lemma {:induction false} SumOfZeros(values: seq<nat>)
    requires forall i :: 0 <= i < |values| ==> values[i] == 0
    ensures Sum(values) == 0
  {
    if values != [] {
      SumOfZeros(values[..|values| - 1]);
    }
  }

  /** The positions are those of the entries, or there are none yet. */
  predicate Sized(positions: seq<nat>, entries: seq<Entry>) {
    positions == [] || |positions| == |entries|
  }

  predicate Within(positions: seq<nat>, entries: seq<Entry>) {
    Sized(positions, entries) && (positions != [] ==> Below(positions, Shares(entries)))
  }

  /** A report never lowers the sum and never takes it above the total. */
  lemma ReportStaysWithin(positions: seq<nat>, entries: seq<Entry>, index: nat, position: nat)
    requires index < |entries| && !entries[index].directory && Within(positions, entries)
    ensures var r := Reported(positions, entries, index, position);
      Within(r, entries) && Sum(positions) <= Sum(r) <= Total(entries)
  {
    var p, r := Resized(positions, |entries|), Reported(positions, entries, index, position);
    assert Below(p, Shares(entries)) && Below(p, r) && Below(r, Shares(entries));
    SumMonotone(p, r);
    SumMonotone(r, Shares(entries));
    if positions == [] {
      SumOfZeros(positions);
    }
  }

  datatype Report = Report(index: nat, position: nat)

  predicate Possible(entries: seq<Entry>, reports: seq<Report>) {
    forall i :: 0 <= i < |reports| ==> reports[i].index < |entries| && !entries[reports[i].index].directory
  }

  function After(positions: seq<nat>, entries: seq<Entry>, reports: seq<Report>): seq<nat>
    requires Possible(entries, reports)
  {
    if reports == [] then positions
    else
      var last := reports[|reports| - 1];
      assert forall i :: 0 <= i < |reports| - 1 ==> reports[..|reports| - 1][i] == reports[i];
      Reported(After(positions, entries, reports[..|reports| - 1]), entries, last.index, last.position)
  }

  /** The furthest position reported for an entry, clamped to its size. */
  function Furthest(entries: seq<Entry>, reports: seq<Report>, index: nat): nat
    requires Possible(entries, reports)
  {
    if reports == [] then 0
    else
      var last := reports[|reports| - 1];
      assert forall i :: 0 <= i < |reports| - 1 ==> reports[..|reports| - 1][i] == reports[i];
      var before := Furthest(entries, reports[..|reports| - 1], index);
      if last.index == index then Max(before, Min(entries[index].size, last.position)) else before
  }

  /** After any reports, in any order and from any number of streams, what is shown as completed is
      the sum over the files of the furthest position reported, and at most the total. */
  lemma {:induction false} CompletedMeans(entries: seq<Entry>, reports: seq<Report>)
    requires Possible(entries, reports) && reports != []
    ensures var p := After([], entries, reports);
      && |p| == |entries| && (forall i :: 0 <= i < |entries| ==> p[i] == Furthest(entries, reports, i))
      && Within(p, entries) && Sum(p) <= Total(entries)
  {
    var last, front := reports[|reports| - 1], reports[..|reports| - 1];
    assert forall i :: 0 <= i < |front| ==> front[i] == reports[i];
    if front != [] {
      CompletedMeans(entries, front);
    }
    var before := After([], entries, front);
    ReportStaysWithin(before, entries, last.index, last.position);
    forall i | 0 <= i < |entries|
      ensures After([], entries, reports)[i] == Furthest(entries, reports, i)
    {
      assert Resized(before, |entries|)[i] == Furthest(entries, front, i);
    }
  }

  // ---------------------------------------------------------------------------------------
  // The object
  // ---------------------------------------------------------------------------------------

  /** What the progress callback is told. */
  datatype Shown = Shown(index: nat, position: nat, completed: nat, total: nat)

  class ExportState {
    const entries: seq<Entry>
    var positions: seq<nat>
    var total: nat
    var ready: bool
    var failed: bool
    var cancelled: bool
    var progress: seq<Shown>

    /** What has been shown so far stays below the total and never goes down. */
    ghost predicate Valid()
      reads this
    {
      && Within(positions, entries)
      && (ready ==> total == Total(entries) < TWO_64)
      && (forall i :: 0 <= i < |progress| ==> progress[i].completed <= Total(entries))
      && (forall i, j :: 0 <= i <= j < |progress| ==> progress[i].completed <= progress[j].completed)
      && (progress != [] ==> progress[|progress| - 1].completed == Sum(positions))
      && (progress == [] ==> positions == [])
    }

    constructor (entries: seq<Entry>)
      ensures Valid() && !ready && !failed && !cancelled && this.entries == entries && total == 0 && progress == []
    {
      this.entries := entries;
      positions, total, ready, failed, cancelled, progress := [], 0, false, false, false, [];
    }

    /** The sum of EnsureManifest: either all sizes add up to a 64-bit number, which becomes the
        total, or the export fails. */
    method AddSizes()
      requires Valid() && total == 0 && !ready
      modifies this`total, this`ready, this`failed, this`cancelled
      ensures Valid() && (ready <==> entries != [] && Total(entries) < TWO_64)
      ensures ready ==> total == Total(entries) && failed == old(failed) && cancelled == old(cancelled)
      ensures !ready ==> failed && cancelled
    {
      if entries == [] {
        failed, cancelled := true, true;
        return;
      }
      var shares := Shares(entries);
      assert shares[..0] == [];
      var i := 0;
      while i < |entries|
        invariant 0 <= i <= |entries|
        invariant total == Sum(shares[..i]) < TWO_64
        invariant Valid() && !ready && failed == old(failed) && cancelled == old(cancelled)
      {
        SumOneMore(shares, i);
        if !entries[i].directory {
          var size := entries[i].size;
          if size > TWO_64 - 1 - total {
            SumOfPrefix(shares, i + 1);
            failed, cancelled := true, true;
            return;
          }
          total := total + size;
        }
        i := i + 1;
      }
      assert shares[..|entries|] == shares;
      ready := true;
    }

    method Report(index: nat, position: nat)
      requires Valid() && index < |entries| && !entries[index].directory
      modifies this`positions, this`progress
      ensures Valid() && positions == Reported(old(positions), entries, index, position)
      ensures progress == old(progress) + [Shown(index, position, Sum(positions), total)]
    {
      ReportStaysWithin(positions, entries, index, position);
      var size := entries[index].size;
      if |positions| != |entries| {
        positions := Resized(positions, |entries|);
      }
      positions := positions[index := Max(positions[index], Min(size, position))];
      var completed := SumUp(positions);
      progress := progress + [Shown(index, position, completed, total)];
    }

    /** ExportState::Cancel. */
    method Cancel()
      modifies this`cancelled
      ensures cancelled
    {
      cancelled := true;
    }
  }

  method SumUp(values: seq<nat>) returns (sum: nat)
    ensures sum == Sum(values)
  {
    assert values[..|values|] == values && values[..0] == [];
    sum := 0;
    for i := 0 to |values|
      invariant sum == Sum(values[..i])
    {
      SumOneMore(values, i);
      sum := sum + values[i];
    }
  }

  lemma {:induction false} SumOfPrefix(values: seq<nat>, k: nat)
    requires k <= |values|
    ensures Sum(values[..k]) <= Sum(values)
  {
    if k < |values| {
      SumOfPrefix(values[..|values| - 1], k);
      assert values[..|values| - 1][..k] == values[..k];
    } else {
      assert values[..k] == values;
    }
  }
}
