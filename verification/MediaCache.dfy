/** The media cache: one file per digest, under a file-name-safe spelling (mediacache.go). */
module MediaCache {
  import opened Wrappers
  import opened Base64
  import opened Text

  datatype MediaFile = MediaFile(name: string, digest: string, data: seq<Byte>)

  /** The two successive replacements that make a digest usable as a file name. */
  function FileSafe(digest: string): string {
    ReplaceAll(ReplaceAll(digest, '/', "_"), '+', "-")
  }

  /** A digest as the encoder writes it. */
  predicate IsDigest(digest: string) {
    forall c :: c in digest ==> InOutput(c)
  }

  function SafeChar(c: char): char {
    if c == '/' then '_' else if c == '+' then '-' else c
  }

  /** The two passes amount to translating each character on its own. */
  lemma {:induction false} FileSafeIsCharwise(digest: string)
    ensures |FileSafe(digest)| == |digest|
    ensures forall k :: 0 <= k < |digest| ==> FileSafe(digest)[k] == SafeChar(digest[k])
  {
    if digest == "" {
    } else {
      var first := ReplaceAll([digest[0]], '/', "_");
      FileSafeIsCharwise(digest[1..]);
      assert digest == [digest[0]] + digest[1..];
      ReplaceAllConcat([digest[0]], digest[1..], '/', "_");
      ReplaceAllConcat(first, ReplaceAll(digest[1..], '/', "_"), '+', "-");
      assert FileSafe(digest) == [SafeChar(digest[0])] + FileSafe(digest[1..]);
    }
  }

  /** The spelling of section 5 of RFC 4648. */
  lemma FileSafeSpelled(digest: string, k: nat)
    requires k < |digest|
    ensures |FileSafe(digest)| == |digest|
    ensures FileSafe(digest)[k] == if digest[k] == '/' then '_' else if digest[k] == '+' then '-' else digest[k]
  {
    FileSafeIsCharwise(digest);
  }

  /** Two digests never share a cache file. */
  lemma FileSafeInjective(a: string, b: string)
    requires IsDigest(a) && IsDigest(b)
    ensures FileSafe(a) == FileSafe(b) <==> a == b
  {
    if FileSafe(a) == FileSafe(b) {
      FileSafeIsCharwise(a);
      FileSafeIsCharwise(b);
      forall k | 0 <= k < |a| ensures a[k] == b[k] {
        assert a[k] in a && b[k] in b;
        assert SafeChar(a[k]) == FileSafe(a)[k] == SafeChar(b[k]);
      }
    }
  }

  /** The data of the last entry with the given digest. */
  function LastWritten(media: seq<MediaFile>, digest: string): Option<seq<Byte>> {
    if media == [] then None
    else
      var last := media[|media| - 1];
      if last.digest == digest then Some(last.data) else LastWritten(media[..|media| - 1], digest)
  }

  /** What is cached under a digest. */
  function Found(files: map<string, seq<Byte>>, digest: string): Option<seq<Byte>> {
    if FileSafe(digest) in files then Some(files[FileSafe(digest)]) else None
  }

  class Cache {
    var files: map<string, seq<Byte>>

    function Lookup(digest: string): Option<seq<Byte>>
      reads this
    {
      Found(files, digest)
    }

    /** Appends the cached file to the media list if there is one. */
    method FromCache(media: seq<MediaFile>, name: string, digest: string)
      returns (media': seq<MediaFile>, found: bool)
      ensures found == Lookup(digest).Some?
      ensures media' == if found then media + [MediaFile(name, digest, Lookup(digest).value)] else media
    {
      var safe := FileSafe(digest);
      found := safe in files;
      media' := media;
      if found {
        media' := media + [MediaFile(name, digest, files[safe])];
      }
    }

    /** A lookup afterwards yields the last data written under that digest and no other. */
    method UpdateCache(media: seq<MediaFile>)
      requires forall f :: f in media ==> IsDigest(f.digest)
      modifies this
      ensures forall d :: IsDigest(d) ==>
        Lookup(d) == if LastWritten(media, d).Some? then LastWritten(media, d) else old(Lookup(d))
    {
      for i := 0 to |media|
        invariant forall d :: IsDigest(d) ==>
          Lookup(d) == if LastWritten(media[..i], d).Some? then LastWritten(media[..i], d) else old(Lookup(d))
      {
        ghost var before := files;
        var f := media[i];
        files := files[FileSafe(f.digest) := f.data];
        assert media[..i + 1][..i] == media[..i];
        forall d | IsDigest(d)
          ensures Lookup(d) == if LastWritten(media[..i + 1], d).Some? then LastWritten(media[..i + 1], d)
                               else old(Lookup(d))
        {
          assert f in media;
          FileSafeInjective(d, f.digest);
        }
      }
      assert media[..|media|] == media;
    }
  }
}
