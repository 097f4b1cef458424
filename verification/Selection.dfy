/** Which of the paths that the user selects are worked on: what the loops of DownloadEntries,
    CopyEntries and DeleteEntries in apps/desktop/src/FileManagerController.cpp come to. */
module Selection {
  import RemotePath
  import opened Scheduler
  import opened Accounting
  import opened Subsequences

  // ---------------------------------------------------------------------------------------
  // The selected paths
  // ---------------------------------------------------------------------------------------

  function Normalized(paths: seq<string>): (names: seq<string>)
    ensures |names| == |paths|
  {
    seq(|paths|, i requires 0 <= i < |paths| => RemotePath.Normalize(paths[i]))
  }

  /** The index at which `name` occurs first, or the length of the sequence. */
  function FirstAt(names: seq<string>, name: string): (k: nat)
    ensures k <= |names| && (k < |names| ==> names[k] == name)
    ensures forall i :: 0 <= i < k ==> names[i] != name
  {
    if names == [] || names[0] == name then 0 else 1 + FirstAt(names[1..], name)
  }

  /** Exactly the names that the folder has, in the order in which they occur first. */
  ghost predicate IsSelection(lookup: map<string, bool>, names: seq<string>, selected: seq<string>) {
    && (forall name :: name in selected <==> name in names && name != "" && name in lookup)
    && (forall k, l :: 0 <= k < l < |selected| ==> FirstAt(names, selected[k]) < FirstAt(names, selected[l]))
  }

  /** A name that the folder has is selected where it occurs first. */
  function Selected(lookup: map<string, bool>, names: seq<string>): seq<string> {
    if names == [] then []
    else
      var front, last := names[..|names| - 1], names[|names| - 1];
      Selected(lookup, front) + if last != "" && last in lookup && last !in front then [last] else []
  }

  lemma FirstInFront(front: seq<string>, last: string, name: string)
    ensures name in front ==> FirstAt(front + [last], name) == FirstAt(front, name) < |front|
    ensures name !in front ==> FirstAt(front + [last], name) >= |front|
  {
    hide FirstAt;
    var names := front + [last];
    assert forall i :: 0 <= i < |front| ==> names[i] == front[i];
    var k := FirstAt(names, name);
    if k < |front| {
      assert front[k] == name;
    }
  }

  /** Looking at one more name. */
  lemma SelectMore(lookup: map<string, bool>, front: seq<string>, selected: seq<string>, last: string)
    requires IsSelection(lookup, front, selected)
    ensures IsSelection(lookup, front + [last],
      if last != "" && last in lookup && last !in front then selected + [last] else selected)
  {
    hide FirstAt;
    var names := front + [last];
    var more := if last != "" && last in lookup && last !in front then selected + [last] else selected;
    forall name ensures name in more <==> name in names && name != "" && name in lookup {
    }
    forall k, l | 0 <= k < l < |more| ensures FirstAt(names, more[k]) < FirstAt(names, more[l]) {
      assert more[k] == selected[k] && selected[k] in selected;
      FirstInFront(front, last, more[k]);
      FirstInFront(front, last, more[l]);
      if l < |selected| {
        assert selected[l] in selected;
      }
    }
  }

  lemma {:induction false} SelectedMeans(lookup: map<string, bool>, names: seq<string>)
    ensures IsSelection(lookup, names, Selected(lookup, names))
  {
    hide IsSelection;
    if names == [] {
      NothingSelected(lookup);
    } else {
      var front, last := names[..|names| - 1], names[|names| - 1];
      SelectedMeans(lookup, front);
      SelectMore(lookup, front, Selected(lookup, front), last);
      assert names == front + [last] && Selected(lookup, front) + [] == Selected(lookup, front);
    }
  }

  lemma NothingSelected(lookup: map<string, bool>)
    ensures IsSelection(lookup, [], [])
  {
  }


  /** The loop over the selected paths collects exactly the selection. */
  lemma {:induction false} KnownIsSelected(lookup: map<string, bool>, front: seq<string>, rest: seq<string>)
    ensures Known(lookup, rest, Selected(lookup, front)) == Selected(lookup, front + Normalized(rest))
    decreases |rest|
  {
    hide RemotePath.Normalize, IsSelection;
    if rest == [] {
      assert front + Normalized(rest) == front;
    } else {
      var path := RemotePath.Normalize(rest[0]);
      var more := front + [path];
      assert more[..|front|] == front && more + Normalized(rest[1..]) == front + Normalized(rest);
      SelectedHas(lookup, front, path);
      KnownIsSelected(lookup, more, rest[1..]);
      assert Selected(lookup, front) + [] == Selected(lookup, front);
    }
  }

  lemma SelectedHas(lookup: map<string, bool>, names: seq<string>, name: string)
    ensures name in Selected(lookup, names) <==> name in names && name != "" && name in lookup
  {
    hide Selected;
    SelectedMeans(lookup, names);
  }

  /** Every named path that the folder has is taken, nothing else is, and the paths taken stand in the
      order in which they were first given. */
  lemma KnownMeans(lookup: map<string, bool>, paths: seq<string>)
    ensures Known(lookup, paths, []) == Selected(lookup, Normalized(paths))
    ensures IsSelection(lookup, Normalized(paths), Known(lookup, paths, []))
  {
    hide IsSelection;
    KnownIsSelected(lookup, [], paths);
    SelectedMeans(lookup, Normalized(paths));
    assert [] + Normalized(paths) == Normalized(paths);
  }

  // ---------------------------------------------------------------------------------------
  // What is not yet under way
  // ---------------------------------------------------------------------------------------

  /** The paths without those that are being worked on or queued. */
  function Unasked(queue: seq<string>, pendingEntry: string, activeEntry: string, paths: seq<string>): seq<string> {
    if paths == [] then []
    else
      (if paths[0] == pendingEntry || paths[0] == activeEntry || paths[0] in queue then [] else [paths[0]])
      + Unasked(queue, pendingEntry, activeEntry, paths[1..])
  }

  lemma {:induction false} UnaskedMeans(queue: seq<string>, pendingEntry: string, activeEntry: string,
      paths: seq<string>)
    ensures var unasked := Unasked(queue, pendingEntry, activeEntry, paths);
      && (forall p :: p in unasked <==> p in paths && p != pendingEntry && p != activeEntry && p !in queue)
      && Subsequence(unasked, paths)
  {
    if paths != [] {
      var rest := Unasked(queue, pendingEntry, activeEntry, paths[1..]);
      UnaskedMeans(queue, pendingEntry, activeEntry, paths[1..]);
      assert paths == [paths[0]] + paths[1..] && ([paths[0]] + rest)[1..] == rest && [] + rest == rest;
    }
  }

  lemma {:induction false} UnaskedApart(queue: seq<string>, pendingEntry: string, activeEntry: string,
      paths: seq<string>, other: string)
    requires other !in paths
    ensures Unasked(queue + [other], pendingEntry, activeEntry, paths) ==
      Unasked(queue, pendingEntry, activeEntry, paths)
  {
    if paths != [] {
      UnaskedApart(queue, pendingEntry, activeEntry, paths[1..], other);
    }
  }

  lemma {:induction false} EnqueuedIs(queue: seq<string>, pendingEntry: string, activeEntry: string, paths: seq<string>)
    requires Distinct(paths)
    ensures Enqueued(queue, pendingEntry, activeEntry, paths) ==
      queue + Unasked(queue, pendingEntry, activeEntry, paths)
    decreases |paths|
  {
    hide Distinct;
    if paths == [] {
      assert queue + [] == queue;
    } else {
      var path, rest := paths[0], paths[1..];
      RestDistinct(paths);
      UnaskedApart(queue, pendingEntry, activeEntry, rest, path);
      if path == pendingEntry || path == activeEntry || path in queue {
        EnqueuedIs(queue, pendingEntry, activeEntry, rest);
        assert [] + Unasked(queue, pendingEntry, activeEntry, rest) == Unasked(queue, pendingEntry, activeEntry, rest);
      } else {
        EnqueuedIs(queue + [path], pendingEntry, activeEntry, rest);
        assert queue + [path] + Unasked(queue, pendingEntry, activeEntry, rest)
            == queue + ([path] + Unasked(queue, pendingEntry, activeEntry, rest));
      }
    }
  }

  lemma RestDistinct(paths: seq<string>)
    requires paths != [] && Distinct(paths)
    ensures Distinct(paths[1..]) && paths[0] !in paths[1..]
  {
    assert forall i :: 0 <= i < |paths[1..]| ==> paths[1..][i] == paths[i + 1];
  }

  /** Of the files to be copied those are put on the clipboard that the folder still has. */
  lemma {:induction false} PresentMeans(lookup: map<string, bool>, paths: seq<string>)
    ensures var present := Present(lookup, paths);
      && (forall p :: p in present <==> p in paths && p in lookup)
      && Subsequence(present, paths)
  {
    if paths != [] {
      var rest := Present(lookup, paths[1..]);
      PresentMeans(lookup, paths[1..]);
      assert paths == [paths[0]] + paths[1..] && ([paths[0]] + rest)[1..] == rest && [] + rest == rest;
    }
  }

  // ---------------------------------------------------------------------------------------
  // What is asked of the module, and what waits
  // ---------------------------------------------------------------------------------------

  lemma SelectedDistinct(lookup: map<string, bool>, paths: seq<string>)
    ensures var selected := Selected(lookup, Normalized(paths));
      Distinct(selected) && Named(selected) && Known(lookup, paths, []) == selected
  {
    KnownMeans(lookup, paths);
    KnownIsDistinct(lookup, paths, []);
  }

  /** The folder and the queues other than that of downloads are as they were. */
  predicate SameOthers(s: State, t: State) {
    && t.lookup == s.lookup && t.currentPath == s.currentPath
    && t.opens == s.opens && t.copies == s.copies && t.uploads == s.uploads
  }

  lemma DownloadsAtOnce(s: State, paths: seq<string>, disk: Disk)
    requires s.action == Idle
    ensures var selected, t := Selected(s.lookup, Normalized(paths)), DownloadEntries(s, paths, disk);
      if selected == [] then t == s
      else
        t == Fetching(s.(downloads := selected[1..], download := Batch(|selected| > 1, |selected|, 0, 0)), selected[0])
  {
    var selected := Selected(s.lookup, Normalized(paths));
    SelectedDistinct(s.lookup, paths);
    SelectedMeans(s.lookup, Normalized(paths));
    hide Selected, Known, Enqueued, BeginDownload, StartNextQueuedDownload, Normalized;
    if selected != [] {
      assert selected[0] in selected && selected[0] in s.lookup && selected[0] != "";
      hide IsSelection;
      if |selected| == 1 {
        BeginPresent(s.(downloads := [], download := Batch(false, 1, 0, 0)), selected[0], false, disk);
      } else {
        StartsFirstPresent(s.(downloads := selected, download := Batch(true, |selected|, 0, 0)), disk);
        assert FirstPresent(s.lookup, selected) == 0;
        assert Skipped(Batch(true, |selected|, 0, 0), 0) == Batch(true, |selected|, 0, 0);
      }
    }
  }

  /** DownloadEntries fetches the first selected file and lets the others wait, in a batch of all of
      them; while something else is in progress it lets all wait that were not waiting already. */
  lemma DownloadEntriesMeans(s: State, paths: seq<string>, disk: Disk)
    ensures var selected, t := Selected(s.lookup, Normalized(paths)), DownloadEntries(s, paths, disk);
      var unasked := Unasked(s.downloads, s.pendingEntry, s.activeEntry, selected);
      SameOthers(s, t) &&
      if s.action != Idle then
        && t.calls == s.calls && t.downloads == s.downloads + unasked && t.action == s.action
        && (unasked == [] ==> t == s)
        && (unasked != [] ==>
              && t.download.active
              && t.download.total - |unasked| ==
                   if s.download.active then s.download.total else if s.action == Download then 1 else 0)
      else if selected == [] then t == s
      else
        && t.calls == s.calls + [Fetch(selected[0])] && t.downloads == selected[1..]
        && t.action == Download && t.activeEntry == t.pendingEntry == selected[0]
        && t.download == Batch(|selected| > 1, |selected|, 0, 0)
  {
    var selected := Selected(s.lookup, Normalized(paths));
    if s.action == Idle {
      hide Selected, DownloadEntries, Unasked, Normalized;
      DownloadsAtOnce(s, paths, disk);
    } else {
      SelectedDistinct(s.lookup, paths);
      EnqueuedIs(s.downloads, s.pendingEntry, s.activeEntry, selected);
      hide Selected, Known, Enqueued, Unasked, Normalized, BeginDownload, StartNextQueuedDownload;
    }
  }

  /** CopyEntries puts all selected files on the clipboard, or lets them wait as one request. */
  lemma CopyEntriesMeans(s: State, paths: seq<string>)
    ensures var selected, t := Selected(s.lookup, Normalized(paths)), CopyEntries(s, paths);
      if selected == [] then t == s
      else if s.action != Idle then
        if selected in s.copies || (s.action == Copy && s.pendingCopies == selected) then t == s
        else t == s.(copies := s.copies + [selected])
      else
        && t.calls == s.calls + [CopyToClipboard(selected)] && t.pendingCopies == selected
        && t.action == Copy && t.exportTotal == |selected| && t.exportCompleted == 0
        && SameOthers(s, t) && t.downloads == s.downloads
  {
    SelectedDistinct(s.lookup, paths);
    hide Selected, Known;
  }

  /** DeleteEntries deletes all selected files and nothing else, if nothing is in progress. */
  lemma DeleteEntriesMeans(s: State, paths: seq<string>)
    ensures var selected, t := Selected(s.lookup, Normalized(paths)), DeleteEntries(s, paths);
      if selected == [] || s.action != Idle then t == s
      else t == s.(action := Delete, calls := s.calls + [DeleteFiles(selected)])
  {
    SelectedDistinct(s.lookup, paths);
  }
}
