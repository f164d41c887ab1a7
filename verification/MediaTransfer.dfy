/** Sending media files in bunches and receiving them (content.go: sendMedia, handleContent). */
module MediaTransfer {
  import opened Wrappers
  import opened Base64
  import opened MediaCache

  type Uint16 = n: int | 0 <= n < 0x1_0000

  const BYTES_PER_MEDIA_BUNCH := 5000

  /** One file of a media packet. */
  datatype File = File(name: string, data: seq<Byte>)

  datatype MediaPacket = MediaPacket(n: Uint16, i: Uint16, files: seq<File>)

  /** The first entry with the name. */
  function FirstNamed(media: seq<MediaFile>, name: string): (k: Option<nat>)
    ensures k.Some? ==> k.value < |media| && media[k.value].name == name
    ensures k.Some? ==> forall j :: 0 <= j < k.value ==> media[j].name != name
    ensures k.None? ==> forall j :: 0 <= j < |media| ==> media[j].name != name
  {
    if media == [] then None
    else if media[0].name == name then Some(0)
    else
      match FirstNamed(media[1..], name)
      case None => None
      case Some(k) => Some(k + 1)
  }

  method FindNamed(media: seq<MediaFile>, name: string) returns (k: Option<nat>)
    ensures k == FirstNamed(media, name)
  {
    for i := 0 to |media|
      invariant forall j :: 0 <= j < i ==> media[j].name != name
    {
      if media[i].name == name {
        FirstNamedIs(media, name, i);
        return Some(i);
      }
    }
    k := None;
  }

  lemma FirstNamedIs(media: seq<MediaFile>, name: string, k: nat)
    requires k < |media| && media[k].name == name
    requires forall j :: 0 <= j < k ==> media[j].name != name
    ensures FirstNamed(media, name) == Some(k)
  {
    var f := FirstNamed(media, name);
    assert f.Some? && !(f.value < k) && !(k < f.value);
  }

  // -------------------------------------------------------------------------
  // Bunches

  /** The requested files that the sender knows, in the order of the request. */
  function KnownFiles(media: seq<MediaFile>, filenames: seq<string>): seq<File> {
    if filenames == [] then []
    else
      var name := filenames[|filenames| - 1];
      KnownFiles(media, filenames[..|filenames| - 1])
      + match FirstNamed(media, name) case None => [] case Some(k) => [File(name, media[k].data)]
  }

  function Size(files: seq<File>): nat {
    if files == [] then 0 else Size(files[..|files| - 1]) + |files[|files| - 1].data|
  }

  function Concat(bunches: seq<seq<File>>): seq<File> {
    if bunches == [] then [] else Concat(bunches[..|bunches| - 1]) + bunches[|bunches| - 1]
  }

  /** A finished bunch reached the limit with its last file. */
  predicate Full(bunch: seq<File>) {
    bunch != [] && Size(bunch[..|bunch| - 1]) < BYTES_PER_MEDIA_BUNCH <= Size(bunch)
  }

  /** The files in order, in full bunches and one that is not full. */
  predicate IsBunching(bunches: seq<seq<File>>, files: seq<File>) {
    && bunches != []
    && Concat(bunches) == files
    && (forall b :: 0 <= b < |bunches| - 1 ==> Full(bunches[b]))
    && Size(bunches[|bunches| - 1]) < BYTES_PER_MEDIA_BUNCH
  }

  lemma SizeSnoc(files: seq<File>, f: File)
    ensures Size(files + [f]) == Size(files) + |f.data|
  {
    assert (files + [f])[..|files|] == files;
  }

  lemma ConcatSnoc(bunches: seq<seq<File>>, bunch: seq<File>)
    ensures Concat(bunches + [bunch]) == Concat(bunches) + bunch
  {
    assert (bunches + [bunch])[..|bunches|] == bunches;
  }

  /** One more file. */
  lemma BunchSnoc(bunches: seq<seq<File>>, files: seq<File>, f: File)
    requires IsBunching(bunches, files)
    ensures var last := bunches[|bunches| - 1] + [f];
      var grown := bunches[|bunches| - 1 := last];
      && Size(last) == Size(bunches[|bunches| - 1]) + |f.data|
      && IsBunching(if Size(last) >= BYTES_PER_MEDIA_BUNCH then grown + [[]] else grown, files + [f])
  {
    hide Size, Concat;
    var init, open := bunches[..|bunches| - 1], bunches[|bunches| - 1];
    var last := open + [f];
    var grown := bunches[|bunches| - 1 := last];
    assert bunches == init + [open] && grown == init + [last];
    ConcatSnoc(init, open);
    ConcatSnoc(init, last);
    ConcatSnoc(grown, []);
    assert Concat(init) + last == Concat(init) + open + [f];
    SizeSnoc(open, f);
    assert last[..|last| - 1] == open;
    EmptySize();
  }

  lemma EmptySize()
    ensures Size([]) == 0 && Concat([[]]) == []
  {
  }

  /** The loop over the requested names. */
  method MakeBunches(media: seq<MediaFile>, filenames: seq<string>) returns (bunches: seq<seq<File>>)
    ensures IsBunching(bunches, KnownFiles(media, filenames))
  {
    bunches := [[]];
    var bunchSize := 0;
    EmptySize();
    for i := 0 to |filenames|
      invariant IsBunching(bunches, KnownFiles(media, filenames[..i]))
      invariant bunchSize == Size(bunches[|bunches| - 1])
    {
      hide Size, Concat, IsBunching;
      assert filenames[..i + 1][..i] == filenames[..i];
      var k := FindNamed(media, filenames[i]);
      if k.Some? {
        var mfile := File(filenames[i], media[k.value].data);
        BunchSnoc(bunches, KnownFiles(media, filenames[..i]), mfile);
        bunches := bunches[|bunches| - 1 := bunches[|bunches| - 1] + [mfile]];
        bunchSize := bunchSize + |mfile.data|;
        if bunchSize >= BYTES_PER_MEDIA_BUNCH {
          bunches := bunches + [[]];
          bunchSize := 0;
          EmptySize();
        }
      } else {
        assert KnownFiles(media, filenames[..i + 1]) == KnownFiles(media, filenames[..i]);
      }
    }
    assert filenames[..|filenames|] == filenames;
  }

  /** Both the number of packets and each packet's number are 16 bits wide. */
  function Packets(bunches: seq<seq<File>>): (packets: seq<MediaPacket>)
    ensures |packets| == |bunches| % 0x1_0000
    ensures forall i :: 0 <= i < |packets| ==> packets[i] == MediaPacket(|bunches| % 0x1_0000, i, bunches[i])
  {
    var n: Uint16 := |bunches| % 0x1_0000;
    seq(n, i requires 0 <= i < n => MediaPacket(n, i, bunches[i]))
  }

  method SendMedia(media: seq<MediaFile>, filenames: seq<string>) returns (packets: seq<MediaPacket>)
    ensures exists bunches :: IsBunching(bunches, KnownFiles(media, filenames)) && packets == Packets(bunches)
  {
    hide IsBunching;
    var bunches := MakeBunches(media, filenames);
    packets := [];
    var n: Uint16 := |bunches| % 0x1_0000;
    for i := 0 to n
      invariant packets == Packets(bunches)[..i]
    {
      packets := packets + [MediaPacket(n, i, bunches[i])];
    }
  }

  /** There are at most `1 + total / 5000` bunches. */
  lemma {:induction false} BunchCount(bunches: seq<seq<File>>, files: seq<File>)
    requires IsBunching(bunches, files)
    ensures |bunches| <= 1 + Size(files) / BYTES_PER_MEDIA_BUNCH
  {
    FullSizes(bunches[..|bunches| - 1]);
    SizeConcat(Concat(bunches[..|bunches| - 1]), bunches[|bunches| - 1]);
  }

  /** The bunches, by their sizes in bytes. */
  lemma BunchesSpelled(bunches: seq<seq<File>>, files: seq<File>)
    requires IsBunching(bunches, files)
    ensures forall b :: 0 <= b < |bunches| - 1 ==>
      bunches[b] != [] && Size(bunches[b]) >= 5000 && Size(bunches[b][..|bunches[b]| - 1]) < 5000
    ensures bunches != [] && Size(bunches[|bunches| - 1]) < 5000
    ensures |bunches| <= 1 + Size(files) / 5000
  {
    BunchCount(bunches, files);
    hide Size;
  }

  /** Requests are answered in their order, and each for itself. */
  lemma {:induction false} KnownInOrder(media: seq<MediaFile>, a: seq<string>, b: seq<string>)
    ensures KnownFiles(media, a + b) == KnownFiles(media, a) + KnownFiles(media, b)
  {
    if b == [] {
      assert a + b == a;
    } else {
      hide FirstNamed;
      KnownInOrder(media, a, b[..|b| - 1]);
      assert (a + b)[..|a + b| - 1] == a + b[..|b| - 1];
    }
  }

  lemma KnownOne(media: seq<MediaFile>, k: nat)
    requires k < |media| && forall j :: 0 <= j < k ==> media[j].name != media[k].name
    ensures KnownFiles(media, [media[k].name]) == [File(media[k].name, media[k].data)]
  {
    FirstNamedIs(media, media[k].name, k);
    assert [media[k].name][..0] == [];
  }

  lemma {:induction false} FullSizes(bunches: seq<seq<File>>)
    requires forall b :: 0 <= b < |bunches| ==> Full(bunches[b])
    ensures Size(Concat(bunches)) >= |bunches| * BYTES_PER_MEDIA_BUNCH
  {
    if bunches == [] {
    } else {
      FullSizes(bunches[..|bunches| - 1]);
      SizeConcat(Concat(bunches[..|bunches| - 1]), bunches[|bunches| - 1]);
    }
  }

  lemma {:induction false} SizeConcat(a: seq<File>, b: seq<File>)
    ensures Size(a + b) == Size(a) + Size(b)
  {
    if b == [] {
      assert a + b == a;
    } else {
      SizeConcat(a, b[..|b| - 1]);
      assert (a + b)[..|a + b| - 1] == a + b[..|b| - 1];
    }
  }

  /** The files determine the bunches. */
  lemma {:induction false} BunchingUnique(x: seq<seq<File>>, y: seq<seq<File>>, files: seq<File>)
    requires IsBunching(x, files) && IsBunching(y, files)
    ensures x == y
    decreases |x|
  {
    hide Size, Full;
    ConcatFront(x);
    ConcatFront(y);
    SingleBunch(x, files);
    SingleBunch(y, files);
    if |x| == 1 {
      assert x[0] == x[0] + Concat(x[1..]) && y[0] == y[0] + Concat(y[1..]);
    } else {
      SameFull(x[0], y[0], files);
      var rest := files[|x[0]|..];
      assert rest == Concat(x[1..]) == Concat(y[1..]);
      BunchingUnique(x[1..], y[1..], rest);
      assert x == [x[0]] + x[1..] && y == [y[0]] + y[1..];
    }
  }

  lemma {:induction false} ConcatFront(bunches: seq<seq<File>>)
    requires bunches != []
    ensures Concat(bunches) == bunches[0] + Concat(bunches[1..])
  {
    if |bunches| > 1 {
      ConcatFront(bunches[..|bunches| - 1]);
      assert bunches[..|bunches| - 1][1..] == bunches[1..][..|bunches| - 2];
    } else {
      assert bunches[1..] == [] && Concat(bunches[..0]) == [];
    }
  }

  lemma PrefixSize(a: seq<File>, b: seq<File>)
    requires a <= b
    ensures Size(a) <= Size(b)
  {
    assert b == a + b[|a|..];
    SizeConcat(a, b[|a|..]);
  }

  lemma SingleBunch(bunches: seq<seq<File>>, files: seq<File>)
    requires IsBunching(bunches, files)
    ensures |bunches| == 1 <==> Size(files) < BYTES_PER_MEDIA_BUNCH
    ensures |bunches| == 1 ==> Concat(bunches[1..]) == []
  {
    ConcatFront(bunches);
    PrefixSize(bunches[0], files);
    if |bunches| == 1 {
      assert bunches[1..] == [] && files == bunches[0];
    } else {
      assert Full(bunches[0]);
    }
  }

  lemma SameFull(a: seq<File>, b: seq<File>, files: seq<File>)
    requires Full(a) && Full(b) && a <= files && b <= files
    ensures a == b
  {
    if |a| < |b| {
      PrefixSize(a, b[..|b| - 1]);
    } else if |b| < |a| {
      PrefixSize(b, a[..|a| - 1]);
    }
  }

  // -------------------------------------------------------------------------
  // The receiver

  /** Stores the data in the first entry with the file's name. */
  function Store(media: seq<MediaFile>, f: File): seq<MediaFile> {
    match FirstNamed(media, f.name)
    case None => media
    case Some(k) => media[k := media[k].(data := f.data)]
  }

  function Fill(media: seq<MediaFile>, files: seq<File>): seq<MediaFile> {
    if files == [] then media else Store(Fill(media, files[..|files| - 1]), files[|files| - 1])
  }

  datatype Receiver = Receiver(media: seq<MediaFile>, success: bool)

  function Received(r: Receiver, p: MediaPacket): Receiver {
    Receiver(Fill(r.media, p.files), r.success || p.i == (p.n - 1) % 0x1_0000)
  }

  function ReceivedAll(r: Receiver, packets: seq<MediaPacket>): Receiver {
    if packets == [] then r else Received(ReceivedAll(r, packets[..|packets| - 1]), packets[|packets| - 1])
  }

  /** The data of the last file with the name. */
  function LastData(files: seq<File>, name: string): Option<seq<Byte>> {
    if files == [] then None
    else if files[|files| - 1].name == name then Some(files[|files| - 1].data)
    else LastData(files[..|files| - 1], name)
  }

  function FilledData(media: seq<MediaFile>, files: seq<File>, k: nat): seq<Byte>
    requires k < |media|
  {
    var data := LastData(files, media[k].name);
    if FirstNamed(media, media[k].name) == Some(k) && data.Some? then data.value else media[k].data
  }

  /** Filling changes data only, and only that of each name's first entry. */
  lemma {:induction false} FillSpec(media: seq<MediaFile>, files: seq<File>)
    ensures var r := Fill(media, files);
      && |r| == |media|
      && (forall k :: 0 <= k < |media| ==> r[k] == media[k].(data := r[k].data))
      && (forall k :: 0 <= k < |media| ==> r[k].data == FilledData(media, files, k))
  {
    if files == [] {
    } else {
      hide FirstNamed;
      var init, f := files[..|files| - 1], files[|files| - 1];
      FillSpec(media, init);
      SameNames(Fill(media, init), media, f.name);
    }
  }

  lemma {:induction false} SameNames(a: seq<MediaFile>, b: seq<MediaFile>, name: string)
    requires |a| == |b| && forall k :: 0 <= k < |a| ==> a[k].name == b[k].name
    ensures FirstNamed(a, name) == FirstNamed(b, name)
  {
    if a != [] && a[0].name != name {
      SameNames(a[1..], b[1..], name);
    }
  }

  lemma {:induction false} FillConcat(media: seq<MediaFile>, a: seq<File>, b: seq<File>)
    ensures Fill(media, a + b) == Fill(Fill(media, a), b)
  {
    if b == [] {
      assert a + b == a;
    } else {
      FillConcat(media, a, b[..|b| - 1]);
      assert (a + b)[..|a + b| - 1] == a + b[..|b| - 1];
    }
  }

  lemma {:induction false} KnownData(media: seq<MediaFile>, filenames: seq<string>, name: string)
    ensures LastData(KnownFiles(media, filenames), name) ==
      match FirstNamed(media, name)
      case None => None
      case Some(k) => if name in filenames then Some(media[k].data) else None
  {
    if filenames == [] {
    } else {
      var init, last := filenames[..|filenames| - 1], filenames[|filenames| - 1];
      KnownData(media, init, name);
      assert filenames == init + [last];
      var known := KnownFiles(media, init);
      match FirstNamed(media, last) {
        case None => assert KnownFiles(media, filenames) == known;
        case Some(k) =>
          var f := File(last, media[k].data);
          assert (known + [f])[..|known|] == known;
      }
    }
  }

  /** After the first `n` packets: the files of the first `n` bunches, and success with the last one. */
  lemma {:induction false} ReceivedPackets(r: Receiver, bunches: seq<seq<File>>, n: nat)
    requires n <= |Packets(bunches)|
    ensures ReceivedAll(r, Packets(bunches)[..n]) ==
      Receiver(Fill(r.media, Concat(bunches[..n])), r.success || (0 < n == |Packets(bunches)|))
  {
    hide Fill, Packets, Concat;
    if n == 0 {
      NothingReceived(r, bunches);
    } else {
      var packets := Packets(bunches)[..n];
      ReceivedPackets(r, bunches, n - 1);
      PacketAt(bunches, n - 1);
      assert packets[..n - 1] == Packets(bunches)[..n - 1];
      assert bunches[..n] == bunches[..n - 1] + [bunches[n - 1]];
      ConcatSnoc(bunches[..n - 1], bunches[n - 1]);
      FillConcat(r.media, Concat(bunches[..n - 1]), bunches[n - 1]);
    }
  }

  lemma NothingReceived(r: Receiver, bunches: seq<seq<File>>)
    ensures Fill(r.media, Concat(bunches[..0])) == r.media
  {
  }

  lemma PacketAt(bunches: seq<seq<File>>, i: nat)
    requires i < |Packets(bunches)|
    ensures Packets(bunches)[i] == MediaPacket(|Packets(bunches)|, i, bunches[i])
  {
  }

  /**
   What the transfer brings about: every requested file that the sender knows ends up in the
   first entry of its name, everything else stays, and success is reported with the last
   packet and not before.
   */
  lemma Delivery(sender: seq<MediaFile>, filenames: seq<string>, bunches: seq<seq<File>>, r: Receiver)
    requires IsBunching(bunches, KnownFiles(sender, filenames)) && |bunches| < 0x1_0000
    ensures var packets := Packets(bunches);
      var end := ReceivedAll(r, packets);
      && end.success
      && (!r.success ==> forall n :: 0 <= n < |packets| ==> !ReceivedAll(r, packets[..n]).success)
      && |end.media| == |r.media|
      && forall k :: 0 <= k < |r.media| ==> end.media[k] == r.media[k].(data :=
           match FirstNamed(sender, r.media[k].name)
           case None => r.media[k].data
           case Some(s) =>
             if r.media[k].name in filenames && FirstNamed(r.media, r.media[k].name) == Some(k)
             then sender[s].data else r.media[k].data)
  {
    hide FirstNamed, Fill, ReceivedAll, Concat, Full, Size, KnownFiles, LastData;
    var packets, files := Packets(bunches), KnownFiles(sender, filenames);
    forall n | 0 <= n <= |packets|
      ensures ReceivedAll(r, packets[..n]) ==
        Receiver(Fill(r.media, Concat(bunches[..n])), r.success || (0 < n == |packets|))
    {
      ReceivedPackets(r, bunches, n);
    }
    assert packets[..|packets|] == packets && bunches[..|packets|] == bunches;
    FillSpec(r.media, files);
    forall k | 0 <= k < |r.media| {
      KnownData(sender, filenames, r.media[k].name);
    }
  }

  /** With 65536 bunches or more the packet numbers wrap and files are never sent. */
  lemma AllSentExactly(bunches: seq<seq<File>>, files: seq<File>)
    requires IsBunching(bunches, files)
    ensures Concat(bunches[..|Packets(bunches)|]) == files <==> |bunches| < 0x1_0000
  {
    var n := |Packets(bunches)|;
    if |bunches| < 0x1_0000 {
      assert bunches[..n] == bunches;
    } else {
      ShorterConcat(bunches, n);
    }
  }

  lemma {:induction false} ShorterConcat(bunches: seq<seq<File>>, n: nat)
    requires n < |bunches| && bunches[n] != []
    ensures |Concat(bunches[..n])| < |Concat(bunches)|
  {
    var init := bunches[..|bunches| - 1];
    if n == |bunches| - 1 {
    } else {
      assert init[n] == bunches[n] && init[..n] == bunches[..n];
      ShorterConcat(init, n);
    }
  }
}
