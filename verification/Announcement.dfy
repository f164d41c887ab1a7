/**
 The packed media announcement: the encoder of process.go (ToSrvInit2) and the decoder of
 content.go (ToCltAnnounceMedia), with the requests and the cache lookups that follow.
 */
module Announcement {
  import opened Wrappers
  import opened Base64
  import opened MediaCache
  import opened MediaTransfer

  /** `sha1.Size`. */
  const DIGEST_SIZE := 20

  datatype Announcement = Announcement(nameLens: seq<Uint16>, nameData: string, digests: seq<seq<Byte>>)

  /** A name with its digest in base64. */
  datatype Entry = Entry(name: string, digest: string)

  function Listed(media: seq<MediaFile>): (list: seq<Entry>)
    ensures |list| == |media|
    ensures forall k :: 0 <= k < |media| ==> list[k] == Entry(media[k].name, media[k].digest)
  {
    seq(|media|, k requires 0 <= k < |media| => Entry(media[k].name, media[k].digest))
  }

  // -------------------------------------------------------------------------
  // Encoder

  /** Copying into a fixed array truncates or leaves zeros. */
  function Fitted(digest: seq<Byte>): (d: seq<Byte>)
    ensures |d| == DIGEST_SIZE
    ensures |digest| == DIGEST_SIZE ==> d == digest
  {
    (digest + seq(DIGEST_SIZE, _ => 0))[..DIGEST_SIZE]
  }

  function NameLens(media: seq<MediaFile>): (lens: seq<Uint16>)
    ensures |lens| == |media|
    ensures forall k :: 0 <= k < |media| ==> lens[k] == |media[k].name| % 0x1_0000
  {
    seq(|media|, k requires 0 <= k < |media| => |media[k].name| % 0x1_0000)
  }

  function NameData(media: seq<MediaFile>): string {
    if media == [] then "" else NameData(media[..|media| - 1]) + media[|media| - 1].name
  }

  predicate Decodable(media: seq<MediaFile>) {
    forall f :: f in media ==> Decode(f.digest).Some?
  }

  function Digests(media: seq<MediaFile>): (digests: seq<seq<Byte>>)
    requires Decodable(media)
    ensures |digests| == |media|
    ensures forall k :: 0 <= k < |media| ==> digests[k] == Fitted(Decode(media[k].digest).value)
  {
    seq(|media|, k requires 0 <= k < |media| => Fitted(Decode(media[k].digest).value))
  }

  /** A digest that is not base64 ends the session instead. */
  function Encoded(media: seq<MediaFile>): Option<Announcement> {
    if Decodable(media) then Some(Announcement(NameLens(media), NameData(media), Digests(media))) else None
  }

  method Announce(media: seq<MediaFile>) returns (r: Option<Announcement>)
    ensures r == Encoded(media)
  {
    var nameLens: seq<Uint16> := [];
    var nameData := "";
    var digests: seq<seq<Byte>> := [];
    for i := 0 to |media|
      invariant Decodable(media[..i])
      invariant nameLens == NameLens(media[..i]) && nameData == NameData(media[..i])
      invariant digests == Digests(media[..i])
    {
      hide Decode, Fitted, NameLens, NameData, Digests;
      assert media[..i + 1] == media[..i] + [media[i]];
      EncodedSnoc(media[..i], media[i]);
      var digest := Decode(media[i].digest);
      if digest.None? {
        assert media[i] in media;
        return None;
      }
      nameLens := nameLens + [|media[i].name| % 0x1_0000];
      nameData := nameData + media[i].name;
      digests := digests + [Fitted(digest.value)];
    }
    assert media[..|media|] == media;
    r := Some(Announcement(nameLens, nameData, digests));
  }

  lemma EncodedSnoc(media: seq<MediaFile>, f: MediaFile)
    requires Decodable(media)
    ensures NameLens(media + [f]) == NameLens(media) + [|f.name| % 0x1_0000]
    ensures NameData(media + [f]) == NameData(media) + f.name
    ensures Decode(f.digest).Some? ==>
      Decodable(media + [f]) && Digests(media + [f]) == Digests(media) + [Fitted(Decode(f.digest).value)]
  {
    hide Decode, Fitted;
    assert (media + [f])[..|media|] == media;
  }

  // -------------------------------------------------------------------------
  // Decoder

  /** The offset behind the first k names. */
  function Offset(lens: seq<Uint16>): nat {
    if lens == [] then 0 else Offset(lens[..|lens| - 1]) + lens[|lens| - 1]
  }

  /** The first k entries; None stands for the panic on a slice or index out of range. */
  function Entries(a: Announcement, k: nat): Option<seq<Entry>>
    requires k <= |a.nameLens|
  {
    if k == 0 then Some([])
    else
      var init := Entries(a, k - 1);
      var from := Offset(a.nameLens[..k - 1]);
      var to := from + a.nameLens[k - 1];
      if init.None? || to > |a.nameData| || k > |a.digests| then None
      else Some(init.value + [Entry(a.nameData[from..to], Encode(a.digests[k - 1]))])
  }

  /** A digest as the proxy computes it: the encoding of 20 bytes. */
  predicate Proper(digest: string) {
    Decode(digest).Some? && |Decode(digest).value| == DIGEST_SIZE && Encode(Decode(digest).value) == digest
  }

  lemma {:induction false} NameDataSlice(media: seq<MediaFile>, k: nat)
    requires k < |media|
    ensures var from := |NameData(media[..k])|;
      from + |media[k].name| <= |NameData(media)| && NameData(media)[from..from + |media[k].name|] == media[k].name
  {
    var init := media[..|media| - 1];
    if k < |media| - 1 {
      NameDataSlice(init, k);
      assert init[..k] == media[..k];
    }
  }

  lemma {:induction false} OffsetIsNameData(media: seq<MediaFile>, k: nat)
    requires k <= |media| && forall f :: f in media ==> |f.name| < 0x1_0000
    ensures Offset(NameLens(media)[..k]) == |NameData(media[..k])|
  {
    if k == 0 {
    } else {
      OffsetIsNameData(media, k - 1);
      assert media[k - 1] in media;
      assert NameLens(media)[..k][..k - 1] == NameLens(media)[..k - 1];
      assert media[..k][..k - 1] == media[..k - 1];
    }
  }

  /** The 20 bytes of an SHA-1 digest are announced as they are. */
  lemma DigestFits(bytes: seq<Byte>)
    requires |bytes| == 20
    ensures Fitted(bytes) == bytes && Proper(Encode(bytes))
  {
    RoundTrip(bytes);
  }

  lemma EntriesDef(a: Announcement, k: nat)
    requires 0 < k <= |a.nameLens| && Entries(a, k - 1).Some?
    ensures var from := Offset(a.nameLens[..k - 1]);
      var to := from + a.nameLens[k - 1];
      Entries(a, k) == if to > |a.nameData| || k > |a.digests| then None
        else Some(Entries(a, k - 1).value + [Entry(a.nameData[from..to], Encode(a.digests[k - 1]))])
  {
  }

  lemma {:induction false} EntriesOfEncoded(media: seq<MediaFile>, a: Announcement, k: nat)
    requires k <= |media| == |a.digests| && forall f :: f in media ==> |f.name| < 0x1_0000
    requires a.nameLens == NameLens(media) && a.nameData == NameData(media)
    requires forall i :: 0 <= i < |media| ==> Encode(a.digests[i]) == media[i].digest
    ensures Entries(a, k) == Some(Listed(media)[..k])
  {
    hide Encode, NameData, Entries, Offset;
    if k > 0 {
      var name, from := media[k - 1].name, Offset(a.nameLens[..k - 1]);
      EntriesOfEncoded(media, a, k - 1);
      EntriesDef(a, k);
      OffsetIsNameData(media, k - 1);
      NameDataSlice(media, k - 1);
      assert media[k - 1] in media;
      assert a.nameLens[k - 1] == |name| && a.nameData[from..from + |name|] == name;
      var list := Listed(media);
      assert list[..k] == list[..k - 1] + [Entry(name, media[k - 1].digest)];
    } else {
      NoEntries(a);
    }
  }

  lemma NoEntries(a: Announcement)
    ensures Entries(a, 0) == Some([])
  {
  }

  lemma DigestKept(digest: string)
    requires Proper(digest)
    ensures Decode(digest).Some? && Encode(Fitted(Decode(digest).value)) == digest
  {
  }

  lemma {:induction false} EntryLengths(a: Announcement, k: nat, i: nat)
    requires i < k <= |a.nameLens| && Entries(a, k).Some?
    ensures |Entries(a, k).value| == k && |Entries(a, k).value[i].name| == a.nameLens[i]
  {
    if k > 1 {
      EntryLengths(a, k - 1, if i < k - 1 then i else 0);
    }
  }

  /**
   The decoder reads back the names and digests in order, with every slice in range, exactly
   if every name is shorter than 65536 bytes.
   */
  lemma RoundTripExactly(media: seq<MediaFile>)
    requires forall f :: f in media ==> Proper(f.digest)
    ensures Encoded(media).Some?
    ensures Entries(Encoded(media).value, |media|) == Some(Listed(media)) <==>
            forall f :: f in media ==> |f.name| < 0x1_0000
  {
    hide Entries, Decode, Encode, NameData, Proper;
    forall f | f in media ensures Decode(f.digest).Some? {
      DigestKept(f.digest);
    }
    assert Decodable(media);
    if forall f :: f in media ==> |f.name| < 0x1_0000 {
      forall i | 0 <= i < |media| ensures Encode(Digests(media)[i]) == media[i].digest {
        assert media[i] in media;
        DigestKept(media[i].digest);
      }
      EntriesOfEncoded(media, Encoded(media).value, |media|);
      assert Listed(media)[..|media|] == Listed(media);
    } else {
      var k :| 0 <= k < |media| && |media[k].name| >= 0x1_0000;
      var a := Encoded(media).value;
      if Entries(a, |media|).Some? {
        EntryLengths(a, |media|, k);
        assert Listed(media)[k].name == media[k].name;
      }
    }
  }

  // -------------------------------------------------------------------------
  // The receiving connection

  /** Every entry with the name gets the digest. */
  function Redigested(media: seq<MediaFile>, e: Entry): (r: seq<MediaFile>)
    ensures |r| == |media|
    ensures forall k :: 0 <= k < |media| ==>
      r[k] == if media[k].name == e.name then media[k].(digest := e.digest) else media[k]
  {
    seq(|media|, k requires 0 <= k < |media| =>
      if media[k].name == e.name then media[k].(digest := e.digest) else media[k])
  }

  /** The media list after the announcement: cached files have data, the others are to be requested. */
  function Announced(media: seq<MediaFile>, list: seq<Entry>, cached: map<string, seq<Byte>>): seq<MediaFile> {
    if list == [] then media
    else
      var before := Announced(media, list[..|list| - 1], cached);
      var e := list[|list| - 1];
      match Found(cached, e.digest)
      case Some(data) => before + [MediaFile(e.name, e.digest, data)]
      case None => Redigested(before, e) + [MediaFile(e.name, e.digest, [])]
  }

  function Requested(list: seq<Entry>, cached: map<string, seq<Byte>>): seq<string> {
    if list == [] then []
    else
      var e := list[|list| - 1];
      Requested(list[..|list| - 1], cached) + if Found(cached, e.digest).Some? then [] else [e.name]
  }

  lemma OffsetDef(lens: seq<Uint16>, k: nat)
    requires k < |lens|
    ensures Offset(lens[..k + 1]) == Offset(lens[..k]) + lens[k]
  {
    assert lens[..k + 1][..k] == lens[..k];
  }

  lemma AnnouncedDef(media: seq<MediaFile>, list: seq<Entry>, e: Entry, cached: map<string, seq<Byte>>)
    ensures Announced(media, list + [e], cached) ==
      (match Found(cached, e.digest)
       case Some(data) => Announced(media, list, cached) + [MediaFile(e.name, e.digest, data)]
       case None => Redigested(Announced(media, list, cached), e) + [MediaFile(e.name, e.digest, [])])
    ensures Requested(list + [e], cached) ==
      Requested(list, cached) + if Found(cached, e.digest).Some? then [] else [e.name]
  {
    hide Found, Redigested;
    assert (list + [e])[..|list|] == list;
  }

  lemma NothingAnnounced(a: Announcement, media: seq<MediaFile>, cached: map<string, seq<Byte>>)
    ensures Offset(a.nameLens[..0]) == 0
    ensures Announced(media, [], cached) == media && Requested([], cached) == []
  {
  }

  lemma EncodedIsDigest(bytes: seq<Byte>)
    ensures IsDigest(Encode(bytes))
  {
  }

  /** The first k entries can be read and the next one cannot. */
  ghost predicate StopsAt(a: Announcement, k: nat) {
    k < |a.nameLens| && Entries(a, k).Some? && Entries(a, k + 1).None?
  }

  class ContentConn {
    var media: seq<MediaFile>
    var success: bool
    var closed: bool

    constructor ()
      ensures media == [] && !success && !closed
    {
      media := [];
      success, closed := false, false;
    }

    /** Digests come from the base64 encoder only. */
    ghost predicate Valid()
      reads this
    {
      forall f :: f in media ==> IsDigest(f.digest)
    }

    method HandleAnnounceMedia(a: Announcement, cache: Cache) returns (r: Outcome<seq<string>, ()>)
      requires Valid()
      modifies this
      ensures Valid() && success == old(success) && closed == old(closed)
      ensures match Entries(a, |a.nameLens|)
        case None =>
          r.Panic? && exists k :: StopsAt(a, k) && media == Announced(old(media), Entries(a, k).value, cache.files)
        case Some(list) =>
          r == Ok(Requested(list, cache.files)) && media == Announced(old(media), list, cache.files)
    {
      hide Found, FileSafe, Entries, Announced, Requested, Offset, Encode, Redigested, IsDigest;
      var filenames: seq<string> := [];
      var offs := 0;
      ghost var list: seq<Entry> := [];
      NoEntries(a);
      NothingAnnounced(a, media, cache.files);
      for fi := 0 to |a.nameLens|
        invariant Valid() && success == old(success) && closed == old(closed)
        invariant Entries(a, fi) == Some(list) && offs == Offset(a.nameLens[..fi])
        invariant media == Announced(old(media), list, cache.files)
        invariant filenames == Requested(list, cache.files)
      {
        var n := a.nameLens[fi];
        EntriesDef(a, fi + 1);
        OffsetDef(a.nameLens, fi);
        if offs + n > |a.nameData| || fi >= |a.digests| {
          EntriesStop(a, fi + 1, |a.nameLens|);
          assert StopsAt(a, fi);
          return Panic;
        }
        var name := a.nameData[offs..offs + n];
        offs := offs + n;
        var digest := Encode(a.digests[fi]);
        EncodedIsDigest(a.digests[fi]);
        ghost var e := Entry(name, digest);
        AnnouncedDef(old(media), list, e, cache.files);
        list := list + [e];
        filenames := TakeEntry(name, digest, cache, filenames);
      }
      r := Ok(filenames);
    }

    /** One announced file: from the cache, or to be requested. */
    method TakeEntry(name: string, digest: string, cache: Cache, filenames: seq<string>)
      returns (filenames': seq<string>)
      requires Valid() && IsDigest(digest)
      modifies this
      ensures Valid() && success == old(success) && closed == old(closed)
      ensures match Found(cache.files, digest)
        case Some(data) => media == old(media) + [MediaFile(name, digest, data)] && filenames' == filenames
        case None =>
          && media == Redigested(old(media), Entry(name, digest)) + [MediaFile(name, digest, [])]
          && filenames' == filenames + [name]
    {
      hide Found, Redigested;
      filenames' := filenames;
      var media', found := cache.FromCache(media, name, digest);
      if found {
        media := media';
      } else {
        filenames' := filenames + [name];
        Redigest(name, digest);
        media := media + [MediaFile(name, digest, [])];
      }
    }

    /** The inner loop over the media list; it does not stop at the first hit. */
    method Redigest(name: string, digest: string)
      requires Valid() && IsDigest(digest)
      modifies this
      ensures Valid() && success == old(success) && closed == old(closed)
      ensures media == Redigested(old(media), Entry(name, digest))
    {
      for i := 0 to |media|
        invariant |media| == |old(media)| && success == old(success) && closed == old(closed)
        invariant forall k :: 0 <= k < i ==> media[k] == Redigested(old(media), Entry(name, digest))[k]
        invariant forall k :: i <= k < |media| ==> media[k] == old(media)[k]
      {
        hide IsDigest;
        if media[i].name == name {
          media := media[i := media[i].(digest := digest)];
        }
      }
    }

    /** The last packet completes the transfer, stores all files in the cache and ends the connection. */
    method HandleMedia(p: MediaPacket, cache: Cache)
      requires Valid()
      modifies this, cache
      ensures Valid() && Receiver(media, success) == Received(Receiver(old(media), old(success)), p)
      ensures closed <==> old(closed) || p.i == (p.n - 1) % 0x1_0000
      ensures p.i != (p.n - 1) % 0x1_0000 ==> cache.files == old(cache.files)
      ensures p.i == (p.n - 1) % 0x1_0000 ==> forall d :: IsDigest(d) ==>
        cache.Lookup(d) == if LastWritten(media, d).Some? then LastWritten(media, d) else old(cache.Lookup(d))
    {
      for i := 0 to |p.files|
        invariant Valid() && success == old(success) && closed == old(closed) && cache.files == old(cache.files)
        invariant media == Fill(old(media), p.files[..i])
      {
        assert p.files[..i + 1][..i] == p.files[..i];
        var f := p.files[i];
        var k := FindNamed(media, f.name);
        if k.Some? {
          media := media[k.value := media[k.value].(data := f.data)];
        }
      }
      assert p.files[..|p.files|] == p.files;
      if p.i == (p.n - 1) % 0x1_0000 {
        cache.UpdateCache(media);
        closed := true;
        success := true;
      }
    }
  }

  lemma {:induction false} EntriesStop(a: Announcement, k: nat, n: nat)
    requires k <= n <= |a.nameLens| && Entries(a, k).None?
    ensures Entries(a, n).None?
  {
    if k < n {
      EntriesStop(a, k, n - 1);
    }
  }

  // -------------------------------------------------------------------------
  // The whole exchange

  ghost predicate DistinctNames(media: seq<MediaFile>) {
    forall i, j :: 0 <= i < j < |media| ==> media[i].name != media[j].name
  }

  /** What the cache holds under the digests of these files are these files. */
  ghost predicate CacheSound(media: seq<MediaFile>, cached: map<string, seq<Byte>>) {
    forall f :: f in media && Found(cached, f.digest).Some? ==> Found(cached, f.digest).value == f.data
  }

  function CachedData(cached: map<string, seq<Byte>>, digest: string): seq<Byte> {
    match Found(cached, digest) case None => [] case Some(data) => data
  }

  /** The receiver's list after the announcement of files with distinct names. */
  lemma {:induction false} AnnouncedShape(media: seq<MediaFile>, cached: map<string, seq<Byte>>)
    requires DistinctNames(media)
    ensures var r := Announced([], Listed(media), cached);
      && |r| == |media|
      && (forall k :: 0 <= k < |media| ==> r[k] == media[k].(data := CachedData(cached, media[k].digest)))
    ensures forall name :: name in Requested(Listed(media), cached) <==>
      exists k :: 0 <= k < |media| && media[k].name == name && Found(cached, media[k].digest).None?
  {
    ListShape(media, cached);
    RequestedExactly(media, cached);
  }

  lemma {:induction false} ListShape(media: seq<MediaFile>, cached: map<string, seq<Byte>>)
    requires DistinctNames(media)
    ensures var r := Announced([], Listed(media), cached);
      && |r| == |media|
      && (forall k :: 0 <= k < |media| ==> r[k] == media[k].(data := CachedData(cached, media[k].digest)))
  {
    hide Found;
    if media == [] {
    } else {
      var init, last := media[..|media| - 1], media[|media| - 1];
      ListShape(init, cached);
      assert Listed(media)[..|media| - 1] == Listed(init);
      var e := Entry(last.name, last.digest);
      var before := Announced([], Listed(init), cached);
      assert Redigested(before, e) == before by {
        assert forall k :: 0 <= k < |init| ==> init[k].name == media[k].name != last.name;
      }
    }
  }

  lemma {:induction false} RequestedExactly(media: seq<MediaFile>, cached: map<string, seq<Byte>>)
    ensures forall name :: name in Requested(Listed(media), cached) <==>
      exists k :: 0 <= k < |media| && media[k].name == name && Found(cached, media[k].digest).None?
  {
    hide Found;
    if media == [] {
    } else {
      var init, last := media[..|media| - 1], media[|media| - 1];
      RequestedExactly(init, cached);
      assert Listed(media)[..|media| - 1] == Listed(init);
      RequestedSnoc(init, last, cached);
    }
  }

  lemma RequestedSnoc(init: seq<MediaFile>, last: MediaFile, cached: map<string, seq<Byte>>)
    ensures var media := init + [last];
      (exists k :: 0 <= k < |media| && media[k].name == last.name && Found(cached, media[k].digest).None?) <==>
      (exists k :: 0 <= k < |init| && init[k].name == last.name && Found(cached, init[k].digest).None?)
      || Found(cached, last.digest).None?
  {
    hide Found;
    var media := init + [last];
    assert media[|init|] == last;
    if k :| 0 <= k < |init| && init[k].name == last.name && Found(cached, init[k].digest).None? {
      assert media[k] == init[k];
    }
  }

  lemma Distinct(media: seq<MediaFile>, r: seq<MediaFile>, k: nat)
    requires DistinctNames(media) && k < |media| == |r|
    requires forall i :: 0 <= i < |media| ==> r[i].name == media[i].name
    ensures FirstNamed(media, media[k].name) == FirstNamed(r, media[k].name) == Some(k)
  {
    FirstNamedIs(media, media[k].name, k);
    FirstNamedIs(r, media[k].name, k);
  }

  /**
   Announcing, looking up, requesting, sending and receiving leave the receiver with exactly
   the sender's media list.
   */
  lemma ExchangeReproduces(media: seq<MediaFile>, cached: map<string, seq<Byte>>, bunches: seq<seq<File>>)
    requires DistinctNames(media) && CacheSound(media, cached)
    requires forall f :: f in media ==> Proper(f.digest) && |f.name| < 0x1_0000
    requires IsBunching(bunches, KnownFiles(media, Requested(Listed(media), cached))) && |bunches| < 0x1_0000
    ensures match Encoded(media)
      case None => false
      case Some(a) => Entries(a, |a.nameLens|) == Some(Listed(media))
    ensures ReceivedAll(Receiver(Announced([], Listed(media), cached), false), Packets(bunches))
         == Receiver(media, true)
  {
    hide Found, Encoded, Entries, Announced, Requested, KnownFiles;
    hide ReceivedAll, Packets, IsBunching, FirstNamed, Proper;
    RoundTripExactly(media);
    EncodedLength(media);
    var filenames := Requested(Listed(media), cached);
    var start := Announced([], Listed(media), cached);
    AnnouncedShape(media, cached);
    Delivery(media, filenames, bunches, Receiver(start, false));
    var end := ReceivedAll(Receiver(start, false), Packets(bunches)).media;
    forall k | 0 <= k < |media| ensures end[k] == media[k] {
      Distinct(media, start, k);
      assert media[k] in media;
      if Found(cached, media[k].digest).None? {
        assert media[k].name in filenames;
      } else {
        assert forall i :: 0 <= i < |media| && media[i].name == media[k].name ==> i == k;
      }
    }
    assert end == media;
  }

  lemma EncodedLength(media: seq<MediaFile>)
    ensures Encoded(media).Some? ==> |Encoded(media).value.nameLens| == |media|
  {
  }
}
