/** Merging the media of all servers (content.go: muxMedia), and how textures find it. */
module MediaMux {
  import opened Textures
  import opened Names
  import opened MediaCache

  datatype PoolMedia = PoolMedia(mediaPool: string, media: seq<MediaFile>)

  /** A file under the name that it gets in its pool. */
  function Moved(pool: string, f: MediaFile): MediaFile {
    f.(name := Prepended(pool, f.name))
  }

  function MovedAll(cc: PoolMedia, files: seq<MediaFile>): (r: seq<MediaFile>)
    ensures |r| == |files|
    ensures forall k :: 0 <= k < |files| ==> r[k] == Moved(cc.mediaPool, files[k])
  {
    seq(|files|, k requires 0 <= k < |files| => Moved(cc.mediaPool, files[k]))
  }

  function Merged(conns: seq<PoolMedia>): seq<MediaFile> {
    if conns == [] then []
    else Merged(conns[..|conns| - 1]) + MovedAll(conns[|conns| - 1], conns[|conns| - 1].media)
  }

  method MuxMedia(conns: seq<PoolMedia>) returns (media: seq<MediaFile>)
    ensures media == Merged(conns)
  {
    media := [];
    for i := 0 to |conns|
      invariant media == Merged(conns[..i])
    {
      hide Moved;
      var cc := conns[i];
      for j := 0 to |cc.media|
        invariant media == Merged(conns[..i]) + MovedAll(cc, cc.media[..j])
      {
        var f := Move(cc.mediaPool, cc.media[j]);
        assert MovedAll(cc, cc.media[..j + 1]) == MovedAll(cc, cc.media[..j]) + [f];
        media := media + [f];
      }
      assert cc.media[..|cc.media|] == cc.media;
      assert conns[..i + 1][..i] == conns[..i];
    }
    assert conns[..|conns|] == conns;
  }

  method Move(pool: string, f: MediaFile) returns (f': MediaFile)
    ensures f' == Moved(pool, f)
  {
    var name := PrependRaw(pool, f.name, false);
    f' := f.(name := name);
  }

  /** The j-th file of the i-th connection, under its pool's name for it. */
  ghost predicate ComesFrom(f: MediaFile, conns: seq<PoolMedia>, i: nat, j: nat) {
    && i < |conns| && j < |conns[i].media|
    && var g := conns[i].media[j];
      f.name == Prepended(conns[i].mediaPool, g.name) && f.digest == g.digest && f.data == g.data
  }

  lemma ComesFromSnoc(f: MediaFile, init: seq<PoolMedia>, cc: PoolMedia)
    ensures (exists i, j :: ComesFrom(f, init + [cc], i, j)) <==>
      (exists i, j :: ComesFrom(f, init, i, j)) || f in MovedAll(cc, cc.media)
  {
    hide Prepended;
    var conns := init + [cc];
    assert conns[|init|] == cc;
    if i: nat, j: nat :| ComesFrom(f, init, i, j) {
      assert conns[i] == init[i];
      assert ComesFrom(f, conns, i, j);
    }
    if i: nat, j: nat :| ComesFrom(f, conns, i, j) {
      if i < |init| {
        assert conns[i] == init[i];
        assert ComesFrom(f, init, i, j);
      } else {
        assert f == MovedAll(cc, cc.media)[j];
      }
    }
    if f in MovedAll(cc, cc.media) {
      var j: nat :| j < |cc.media| && f == MovedAll(cc, cc.media)[j];
      assert ComesFrom(f, conns, |init|, j);
    }
  }

  /** The client gets exactly the files of all connections, each under its pool's name for it. */
  lemma {:induction false} MergedExactly(conns: seq<PoolMedia>, f: MediaFile)
    ensures f in Merged(conns) <==> exists i, j :: ComesFrom(f, conns, i, j)
  {
    if conns == [] {
    } else {
      hide Prepended, ComesFrom, Moved;
      var init, cc := conns[..|conns| - 1], conns[|conns| - 1];
      assert conns == init + [cc];
      MergedExactly(init, f);
      ComesFromSnoc(f, init, cc);
    }
  }

  /** A reference to one of a pool's texture files leads to that file's data. */
  lemma ReferenceFindsFile(conns: seq<PoolMedia>, i: nat, j: nat)
    requires i < |conns| && j < |conns[i].media|
    requires var file := conns[i].media[j].name;
      TEXTURE_NAME.Within(file) && TEXTURE_NAME.HasMedia(file) && !Default(file, true)
    ensures var f := conns[i].media[j];
      MediaFile(TexturePrepended(conns[i].mediaPool, f.name), f.digest, f.data) in Merged(conns)
  {
    var f := conns[i].media[j];
    MediaFileAgreement(conns[i].mediaPool, f.name);
    var g := MediaFile(Prepended(conns[i].mediaPool, f.name), f.digest, f.data);
    assert ComesFrom(g, conns, i, j);
    MergedExactly(conns, g);
  }
}
