/** A channel of modules/common/src/TransferChannel.cpp is used for one transfer after the other.
    Any sequence of listings, directories and files sent on it is received in order, because each
    receiver stops on exactly the last byte of its transfer. */
module ChannelReuse {
  import opened Packable
  import opened FileEntries
  import opened DirectoryListing
  import FT = FileTransfer
  import TransferChannels

  datatype Transfer =
    | Listing(entries: seq<FileEntry>)
    | Directory(records: seq<FT.Record>)
    | File(content: seq<byte>)

  /** Which receiver is started; that is agreed outside the channel. */
  datatype Kind = ListingKind | DirectoryKind | FileKind

  datatype Arrival =
    | ListingArrived(entries: seq<FileEntry>)
    | DirectoryArrived(files: FT.Files, progress: nat)
    | FileArrived(content: seq<byte>)

  function KindOf(t: Transfer): Kind {
    match t
    case Listing(_) => ListingKind
    case Directory(_) => DirectoryKind
    case File(_) => FileKind
  }

  function Kinds(ts: seq<Transfer>): (ks: seq<Kind>)
    ensures |ks| == |ts|
  {
    if ts == [] then [] else [KindOf(ts[0])] + Kinds(ts[1..])
  }

  /** Every entry of a listing fits a frame; every header of a directory fits 1024 bytes, and the
      files it names can be opened, as can the destination of a single file. */
  ghost predicate Sendable(d: FT.Destination, t: Transfer) {
    match t
    case Listing(entries) => Listable(TransferChannels.ROOM, entries)
    case Directory(records) => FT.AllSendable(records) && FT.AllOpenable(d, map[], records) && FT.HeadersFit(records)
    case File(content) => |content| < TWO_64
  }

  ghost function Enc(d: FT.Destination, t: Transfer): seq<byte>
    requires Sendable(d, t)
  {
    match t
    case Listing(entries) => EncListing(TransferChannels.ROOM, entries)
    case Directory(records) => FT.EncDirectory(records)
    case File(content) => FT.EncFile(content)
  }

  ghost predicate AllSendable(d: FT.Destination, ts: seq<Transfer>) {
    forall i :: 0 <= i < |ts| ==> Sendable(d, ts[i])
  }

  ghost function EncAll(d: FT.Destination, ts: seq<Transfer>): seq<byte>
    requires AllSendable(d, ts)
  {
    if ts == [] then [] else Enc(d, ts[0]) + EncAll(d, ts[1..])
  }

  function Arrived(d: FT.Destination, t: Transfer): Arrival {
    match t
    case Listing(entries) => ListingArrived(entries)
    case Directory(records) => DirectoryArrived(FT.Stored(d, map[], records), FT.AcceptedBytes(d, records))
    case File(content) => FileArrived(content)
  }

  function AllArrived(d: FT.Destination, ts: seq<Transfer>): seq<Arrival> {
    if ts == [] then [] else [Arrived(d, ts[0])] + AllArrived(d, ts[1..])
  }

  const BUFFER: nat := TransferChannels.TRANSFER_BUFFER_SIZE

  /** One receiver; `buffer` is what earlier transfers left in the channel's buffer. */
  function ReceiveOne(d: FT.Destination, k: Kind, buffer: seq<byte>, input: seq<byte>): Option<(Arrival, seq<byte>)>
    requires |buffer| == BUFFER
  {
    match k
    case ListingKind =>
      (match ReceiveListing(TransferChannels.ROOM, buffer, input)
       case Received(entries, unread) => Some((ListingArrived(entries), unread))
       case _ => None)
    case DirectoryKind =>
      (match FT.ReceiveRecords(d, FT.FreshHeaderBuffer(), input, map[], 0)
       case Completed(files, progress, unread) => Some((DirectoryArrived(files, progress), unread))
       case Failed(_) => None)
    case FileKind =>
      (match FT.ReceivedFile(true, input)
       case FileReceived(content, unread) => Some((FileArrived(content), unread))
       case FileFailed(_) => None)
  }

  /** One receiver after the other; `buffers` is what each of them finds in the channel's buffer. */
  function ReceiveAll(d: FT.Destination, ks: seq<Kind>, buffers: seq<seq<byte>>, input: seq<byte>)
    : Option<(seq<Arrival>, seq<byte>)>
    requires |ks| == |buffers| && forall i :: 0 <= i < |buffers| ==> |buffers[i]| == BUFFER
    decreases |ks|
  {
    if ks == [] then Some(([], input))
    else match ReceiveOne(d, ks[0], buffers[0], input)
      case None => None
      case Some((first, unread)) =>
        match ReceiveAll(d, ks[1..], buffers[1..], unread)
        case None => None
        case Some((rest, left)) => Some(([first] + rest, left))
  }

  lemma OneArrives(d: FT.Destination, t: Transfer, buffer: seq<byte>, suffix: seq<byte>)
    requires Sendable(d, t) && |buffer| == BUFFER
    ensures ReceiveOne(d, KindOf(t), buffer, Enc(d, t) + suffix) == Some((Arrived(d, t), suffix))
  {
    hide ReceiveListing, EncListing, FT.ReceiveRecords, FT.EncDirectory, FT.ReceivedFile, FT.EncFile, FT.Stored,
      FT.AcceptedBytes, FT.AllSendable, FT.AllOpenable, FT.HeadersFit, Listable, FT.ReceivedFileData;
    match t
    case Listing(entries) => ListingRoundTrip(TransferChannels.ROOM, entries, buffer, suffix);
    case Directory(records) => FT.DirectoryReceived(d, records, FT.FreshHeaderBuffer(), suffix);
    case File(content) => FT.FileRoundTrip(true, content, suffix, |content|);
  }

  lemma AllButFirst(d: FT.Destination, ts: seq<Transfer>, buffers: seq<seq<byte>>)
    requires ts != [] && AllSendable(d, ts) && |buffers| == |ts|
    requires forall i :: 0 <= i < |buffers| ==> |buffers[i]| == BUFFER
    ensures Sendable(d, ts[0]) && AllSendable(d, ts[1..])
    ensures forall i :: 0 <= i < |buffers[1..]| ==> |buffers[1..][i]| == BUFFER
    ensures Kinds(ts)[0] == KindOf(ts[0]) && Kinds(ts)[1..] == Kinds(ts[1..])
  {
    hide Sendable;
    assert forall i :: 0 <= i < |ts[1..]| ==> ts[1..][i] == ts[i + 1];
    assert forall i :: 0 <= i < |buffers[1..]| ==> buffers[1..][i] == buffers[i + 1];
  }

  /** Whatever is sent on a channel, one transfer after the other, arrives in that order and
      unchanged, and whatever follows on the stream is still unread. */
  lemma {:induction false} ChannelCanBeReused(d: FT.Destination, ts: seq<Transfer>, buffers: seq<seq<byte>>,
      suffix: seq<byte>)
    requires AllSendable(d, ts) && |buffers| == |ts| && forall i :: 0 <= i < |buffers| ==> |buffers[i]| == BUFFER
    ensures ReceiveAll(d, Kinds(ts), buffers, EncAll(d, ts) + suffix) == Some((AllArrived(d, ts), suffix))
    decreases |ts|
  {
    hide AllSendable, Sendable, Enc, ReceiveOne, Arrived;
    if ts == [] {
      assert EncAll(d, ts) + suffix == suffix;
    } else {
      AllButFirst(d, ts, buffers);
      var later := EncAll(d, ts[1..]);
      OneArrives(d, ts[0], buffers[0], later + suffix);
      Associative(Enc(d, ts[0]), later, suffix);
      ChannelCanBeReused(d, ts[1..], buffers[1..], suffix);
    }
  }
}
