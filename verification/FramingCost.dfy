/** How many frames the sender of a directory listing uses (modules/common/src/TransferChannel.cpp,
    the loop of CoSendDirectoryEntries): never more than any other order-preserving split, and
    never more than about twice what the payload alone would ask for. */
module FramingCost {
  import opened Packable
  import opened FileEntries
  import opened DirectoryListing

  /** Frames needed for `es` when `used` bytes of the current frame are taken. */
  function Count(room: nat, used: nat, es: seq<FileEntry>): nat
    decreases |es|
  {
    if es == [] then 1
    else if used + SerializedSize(es[0]) > room then 1 + Count(room, SerializedSize(es[0]), es[1..])
    else Count(room, used + SerializedSize(es[0]), es[1..])
  }

  lemma {:induction false} FramesCounted(room: nat, current: seq<FileEntry>, rest: seq<FileEntry>)
    ensures |Frames(room, current, rest)| == Count(room, PayloadSize(current), rest)
    decreases |rest|
  {
    hide SerializedSize;
    if rest != [] {
      AppendEntry(current, rest[0]);
      AppendEntry([], rest[0]);
      assert [] + [rest[0]] == [rest[0]];
      FramesCounted(room, [rest[0]], rest[1..]);
      FramesCounted(room, current + [rest[0]], rest[1..]);
    }
  }

  function TotalSize(es: seq<FileEntry>): nat {
    if es == [] then 0 else SerializedSize(es[0]) + TotalSize(es[1..])
  }

  lemma {:induction false} TotalIsPayload(es: seq<FileEntry>)
    ensures TotalSize(es) == PayloadSize(es)
    decreases |es|
  {
    hide SerializedSize;
    if es != [] {
      var n := |es| - 1;
      if n == 0 {
        assert es[1..] == es[..n] == [];
      } else {
        TotalIsPayload(es[1..]);
        TotalIsPayload(es[1..][..n - 1]);
        TotalIsPayload(es[..n]);
        assert es[..n][1..] == es[1..][..n - 1] && es[1..][n - 1] == es[n];
      }
    }
  }

  lemma RestFits(room: nat, es: seq<FileEntry>)
    requires AllFit(room, es) && es != []
    ensures Fits(room, es[0]) && AllFit(room, es[1..])
  {
    forall i | 0 <= i < |es[1..]| ensures Fits(room, es[1..][i]) {
      assert Fits(room, es[i + 1]);
    }
  }

  /** A fuller current frame never needs fewer frames, and at most one more: this is why it never
      pays to close a frame early. */
  lemma {:induction false} FullerFrame(room: nat, less: nat, more: nat, es: seq<FileEntry>)
    requires less <= more && AllFit(room, es)
    ensures Count(room, less, es) <= Count(room, more, es) <= Count(room, less, es) + 1
    decreases |es|
  {
    hide SerializedSize;
    if es != [] {
      var s := SerializedSize(es[0]);
      RestFits(room, es);
      if less + s <= room {
        FullerFrame(room, less + s, more + s, es[1..]);
        FullerFrame(room, s, less + s, es[1..]);
      }
    }
  }

  /** Entries that fit together stay in the frame they were started in. */
  lemma {:induction false} WithinOneFrame(room: nat, used: nat, f: seq<FileEntry>, es: seq<FileEntry>)
    requires used + TotalSize(f) <= room
    ensures Count(room, used, f + es) == Count(room, used + TotalSize(f), es)
    decreases |f|
  {
    hide SerializedSize;
    if f == [] {
      assert f + es == es;
    } else {
      assert (f + es)[1..] == f[1..] + es;
      WithinOneFrame(room, used + SerializedSize(f[0]), f[1..], es);
    }
  }

  ghost predicate SplitOf(room: nat, split: seq<seq<FileEntry>>, es: seq<FileEntry>) {
    && Flatten(split) == es
    && forall i :: 0 <= i < |split| ==> PayloadSize(split[i]) <= room
  }

  lemma {:induction false} AtMostAnySplit(room: nat, split: seq<seq<FileEntry>>)
    requires SplitOf(room, split, Flatten(split)) && AllFit(room, Flatten(split)) && split != []
    ensures Count(room, 0, Flatten(split)) <= |split|
    decreases |split|
  {
    hide SerializedSize;
    var f, later := split[0], split[1..];
    var es := Flatten(later);
    TotalIsPayload(f);
    WithinOneFrame(room, 0, f, es);
    assert AllFit(room, es) by {
      forall i | 0 <= i < |es| ensures Fits(room, es[i]) { assert Fits(room, Flatten(split)[|f| + i]); }
    }
    if later != [] {
      assert forall i :: 0 <= i < |later| ==> later[i] == split[i + 1];
      AtMostAnySplit(room, later);
      FullerFrame(room, 0, TotalSize(f), es);
    }
  }

  /** The framing is optimal: no way of cutting a non-empty listing into consecutive frames that
      each fit uses fewer frames than the sender does. */
  lemma FramingIsOptimal(room: nat, es: seq<FileEntry>, split: seq<seq<FileEntry>>)
    requires es != [] && AllFit(room, es) && SplitOf(room, split, es)
    ensures |Frames(room, [], es)| <= |split|
  {
    FramesCounted(room, [], es);
    AtMostAnySplit(room, split);
  }

  lemma {:induction false} CountBound(room: nat, used: nat, es: seq<FileEntry>)
    requires AllFit(room, es)
    ensures (Count(room, used, es) - 1) * room <= 2 * TotalSize(es) + used
    decreases |es|
  {
    hide SerializedSize, AllFit, Fits;
    if es != [] {
      var s := SerializedSize(es[0]);
      RestFits(room, es);
      CountBound(room, s, es[1..]);
      CountBound(room, used + s, es[1..]);
      OneMoreFrame(Count(room, s, es[1..]), room);
    }
  }

  lemma OneMoreFrame(k: int, room: nat)
    ensures k * room == (k - 1) * room + room
  {
  }

  /** Two consecutive frames always carry more than one frame's worth, so k frames carry at least
      half of (k - 1) full ones. */
  lemma FramesAreHalfFull(room: nat, es: seq<FileEntry>)
    requires AllFit(room, es)
    ensures (|Frames(room, [], es)| - 1) * room <= 2 * PayloadSize(es)
  {
    FramesCounted(room, [], es);
    CountBound(room, 0, es);
    TotalIsPayload(es);
  }
}
