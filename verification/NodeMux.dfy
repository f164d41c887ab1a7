/**
 Merging the node definitions of all servers into one id space (content.go:
 muxNodeDefs, globalParam0, srvParam0) and translating map blocks with it.
 */
module NodeMux {
  import opened Wrappers
  import opened Names
  import opened Textures

  /** `mt.Content`, a 16-bit node id. */
  type Content = c: int | 0 <= c < 0x1_0000

  const UNKNOWN: Content := 125
  const AIR: Content := 126
  const IGNORE: Content := 127

  /** The number of ids that are not reserved. */
  const CAPACITY := 0x1_0000 - 3

  /** The fields of a definition that are rewritten. */
  datatype NodeDef = NodeDef(param0: Content, name: string, mesh: string, tiles: seq<string>,
                             overlayTiles: seq<string>, specialTiles: seq<string>, palette: string,
                             connectTo: seq<Content>, flowingAlt: string, srcAlt: string,
                             footstepSnd: string, diggingSnd: string, dugSnd: string, digPredict: string)

  datatype ContentConn = ContentConn(name: string, mediaPool: string, nodeDefs: seq<NodeDef>)
  datatype Origin = Origin(name: string, param0: Content)

  type Param0Map = map<string, map<Content, Content>>
  type Param0SrvMap = map<Content, Origin>

  predicate Reserved(c: Content) {
    c == UNKNOWN || c == AIR || c == IGNORE
  }

  // -------------------------------------------------------------------------
  // The id counter

  /** One step of the 16-bit counter, which skips the reserved band. */
  function Next(param0: Content): Content {
    var q: Content := (param0 + 1) % 0x1_0000;
    if UNKNOWN <= q <= IGNORE then IGNORE + 1 else q
  }

  function Counter(k: nat): Content {
    if k == 0 then 0 else Next(Counter(k - 1))
  }

  /** The id of the k-th definition while ids last. */
  function Id(k: nat): Content
    requires k < CAPACITY
  {
    if k < UNKNOWN then k else k + 3
  }

  /** The ids that Minetest reserves, and how many are left. */
  lemma ReservedIs(c: Content)
    ensures Reserved(c) <==> 125 <= c <= 127
    ensures CAPACITY == 65533
  {
  }

  lemma CounterDef(k: nat)
    ensures Counter(k) == if k == 0 then 0 else Next(Counter(k - 1))
  {
  }

  lemma {:induction false} CounterBelow(k: nat)
    requires k < CAPACITY
    ensures Counter(k) == Id(k)
  {
    hide Counter;
    CounterDef(k);
    if k == 0 {
    } else {
      CounterBelow(k - 1);
    }
  }

  lemma {:induction false} CounterRepeats(k: nat, period: nat)
    requires Counter(period) == Counter(0)
    ensures Counter(k + period) == Counter(k)
  {
    hide Counter;
    CounterDef(k);
    CounterDef(k + period);
    if k == 0 {
    } else {
      CounterRepeats(k - 1, period);
      assert k + period - 1 == (k - 1) + period;
    }
  }

  lemma CounterWraps(period: nat)
    requires period == CAPACITY
    ensures Counter(period) == Counter(0) == 0
  {
    hide Counter;
    CounterDef(period);
    CounterBelow(period - 1);
    CounterBelow(0);
  }

  /** The counter runs through all unreserved ids in increasing order and then starts over at 0. */
  lemma {:induction false} CounterCycles(k: nat)
    ensures Counter(k) == Id(k % CAPACITY)
    ensures !Reserved(Counter(k))
  {
    hide Counter;
    if k < CAPACITY {
      CounterBelow(k);
    } else {
      CounterCycles(k - CAPACITY);
      CounterWraps(CAPACITY);
      CounterRepeats(k - CAPACITY, CAPACITY);
      assert k % CAPACITY == (k - CAPACITY) % CAPACITY;
    }
  }

  /** No two definitions share an id exactly while there are at most `CAPACITY` of them. */
  lemma CounterInjectiveExactly(n: nat)
    ensures (forall i, j :: 0 <= i < j < n ==> Counter(i) != Counter(j)) <==> n <= CAPACITY
  {
    hide Counter;
    if n <= CAPACITY {
      forall i, j | 0 <= i < j < n ensures Counter(i) < Counter(j) {
        CounterCycles(i);
        CounterCycles(j);
      }
    } else {
      CounterWraps(CAPACITY);
      assert Counter(0) == Counter(CAPACITY);
    }
  }

  // -------------------------------------------------------------------------
  // What the tables hold

  /** A definition with the connection it comes from. */
  datatype Tagged = Tagged(name: string, pool: string, def: NodeDef) {
    function From(): Origin {
      Origin(name, def.param0)
    }
  }

  function TagAll(cc: ContentConn, defs: seq<NodeDef>): (ds: seq<Tagged>)
    ensures |ds| == |defs|
    ensures forall k :: 0 <= k < |ds| ==> ds[k] == Tagged(cc.name, cc.mediaPool, defs[k])
  {
    seq(|defs|, k requires 0 <= k < |defs| => Tagged(cc.name, cc.mediaPool, defs[k]))
  }

  /** All definitions in the order in which they are numbered. */
  function Flat(conns: seq<ContentConn>): seq<Tagged> {
    if conns == [] then []
    else Flat(conns[..|conns| - 1]) + TagAll(conns[|conns| - 1], conns[|conns| - 1].nodeDefs)
  }

  /** The last definition of a server's local id. */
  function LastDef(ds: seq<Tagged>, o: Origin): (k: Option<nat>)
    ensures k.Some? ==> k.value < |ds| && ds[k.value].From() == o
    ensures k.Some? ==> forall j :: k.value < j < |ds| ==> ds[j].From() != o
    ensures k.None? ==> forall j :: 0 <= j < |ds| ==> ds[j].From() != o
  {
    if ds == [] then None
    else if ds[|ds| - 1].From() == o then Some(|ds| - 1)
    else LastDef(ds[..|ds| - 1], o)
  }

  /** The last of the first n definitions that was given the id. */
  function LastOwner(n: nat, id: Content): (k: Option<nat>)
    ensures k.Some? ==> k.value < n && Counter(k.value) == id
    ensures k.Some? ==> forall j: nat :: k.value < j < n ==> Counter(j) != id
    ensures k.None? ==> forall j: nat :: j < n ==> Counter(j) != id
  {
    if n == 0 then None
    else if Counter(n - 1) == id then Some(n - 1)
    else LastOwner(n - 1, id)
  }

  ghost predicate Known(ds: seq<Tagged>, server: string) {
    exists k :: 0 <= k < |ds| && ds[k].name == server
  }

  /** The global id of a server's local id; an undefined one reads as the zero value. */
  function Forward(ds: seq<Tagged>, o: Origin): Content {
    match LastDef(ds, o)
    case Some(k) => Counter(k)
    case None => if Reserved(o.param0) then o.param0 else 0
  }

  function Backward(ds: seq<Tagged>, id: Content): Origin {
    match LastOwner(|ds|, id)
    case Some(k) => ds[k].From()
    case None => if Reserved(id) then Origin("", id) else Origin("", 0)
  }

  ghost predicate ForwardTable(ds: seq<Tagged>, p0Map: Param0Map) {
    && (forall s :: s in p0Map <==> Known(ds, s))
    && (forall s :: s in p0Map ==> Row(ds, s, p0Map[s]))
  }

  ghost predicate Row(ds: seq<Tagged>, server: string, row: map<Content, Content>) {
    && (forall l :: l in row <==> Reserved(l) || LastDef(ds, Origin(server, l)).Some?)
    && (forall l :: l in row ==> row[l] == Forward(ds, Origin(server, l)))
  }

  ghost predicate BackwardTable(ds: seq<Tagged>, p0SrvMap: Param0SrvMap) {
    && (forall id :: id in p0SrvMap <==> Reserved(id) || LastOwner(|ds|, id).Some?)
    && (forall id :: id in p0SrvMap ==> p0SrvMap[id] == Backward(ds, id))
  }

  /** The k-th definition as the client gets it: connections are looked up among those numbered so far. */
  function Muxed(ds: seq<Tagged>, k: nat): NodeDef
    requires k < |ds|
  {
    var d := ds[k];
    Renamed(d.pool, d.def).(param0 := Counter(k), connectTo := Connected(ds[..k + 1], d.name, d.def.connectTo))
  }

  /** Names get the pool's prefix, textures are rewritten. */
  function Renamed(pool: string, def: NodeDef): NodeDef {
    NodeDef(def.param0, Prepended(pool, def.name), Prepended(pool, def.mesh), Rewritten(pool, def.tiles),
            Rewritten(pool, def.overlayTiles), Rewritten(pool, def.specialTiles),
            TexturePrepended(pool, def.palette), def.connectTo, Prepended(pool, def.flowingAlt),
            Prepended(pool, def.srcAlt), Prepended(pool, def.footstepSnd), Prepended(pool, def.diggingSnd),
            Prepended(pool, def.dugSnd), Prepended(pool, def.digPredict))
  }

  function Rewritten(pool: string, textures: seq<string>): (r: seq<string>)
    ensures |r| == |textures|
    ensures forall k :: 0 <= k < |r| ==> r[k] == TexturePrepended(pool, textures[k])
  {
    seq(|textures|, k requires 0 <= k < |textures| => TexturePrepended(pool, textures[k]))
  }

  /** Within a pool, definitions that differ in more than their ids still differ. */
  lemma RenamedInjective(pool: string, a: NodeDef, b: NodeDef)
    ensures Renamed(pool, a) == Renamed(pool, b) <==> a == b
  {
    hide Prepended, TexturePrepended;
    PrependInjective(pool, a.name, b.name);
    PrependInjective(pool, a.mesh, b.mesh);
    RewrittenInjective(pool, a.tiles, b.tiles);
    RewrittenInjective(pool, a.overlayTiles, b.overlayTiles);
    RewrittenInjective(pool, a.specialTiles, b.specialTiles);
    TextureInjective(pool, a.palette, b.palette);
    PrependInjective(pool, a.flowingAlt, b.flowingAlt);
    PrependInjective(pool, a.srcAlt, b.srcAlt);
    PrependInjective(pool, a.footstepSnd, b.footstepSnd);
    PrependInjective(pool, a.diggingSnd, b.diggingSnd);
    PrependInjective(pool, a.dugSnd, b.dugSnd);
    PrependInjective(pool, a.digPredict, b.digPredict);
  }

  /** References between definitions of a pool survive: what names a node still names that node. */
  lemma ReferencesSurvive(pool: string, a: NodeDef, b: NodeDef)
    ensures Renamed(pool, a).flowingAlt == Renamed(pool, b).name <==> a.flowingAlt == b.name
    ensures Renamed(pool, a).srcAlt == Renamed(pool, b).name <==> a.srcAlt == b.name
    ensures Renamed(pool, a).digPredict == Renamed(pool, b).name <==> a.digPredict == b.name
  {
    hide Prepended, TexturePrepended;
    PrependInjective(pool, a.flowingAlt, b.name);
    PrependInjective(pool, a.srcAlt, b.name);
    PrependInjective(pool, a.digPredict, b.name);
  }

  /** What a name becomes, spelled out. */
  ghost predicate Prefixed(pool: string, before: string, after: string) {
    after == if before == "" || before == "air" || before == "unknown" || before == "ignore" then before
             else pool + "_" + before
  }

  /** Each plain field gets the prefix in its own place. */
  lemma FieldsPrefixed(pool: string, def: NodeDef)
    ensures var r := Renamed(pool, def);
      && Prefixed(pool, def.name, r.name) && Prefixed(pool, def.mesh, r.mesh)
      && Prefixed(pool, def.flowingAlt, r.flowingAlt) && Prefixed(pool, def.srcAlt, r.srcAlt)
      && Prefixed(pool, def.footstepSnd, r.footstepSnd) && Prefixed(pool, def.diggingSnd, r.diggingSnd)
      && Prefixed(pool, def.dugSnd, r.dugSnd) && Prefixed(pool, def.digPredict, r.digPredict)
      && r.param0 == def.param0 && r.connectTo == def.connectTo
  {
    hide Prefixed, Prepended, TexturePrepended;
    FieldPrefixed(pool, def.name);
    FieldPrefixed(pool, def.mesh);
    FieldPrefixed(pool, def.flowingAlt);
    FieldPrefixed(pool, def.srcAlt);
    FieldPrefixed(pool, def.footstepSnd);
    FieldPrefixed(pool, def.diggingSnd);
    FieldPrefixed(pool, def.dugSnd);
    FieldPrefixed(pool, def.digPredict);
  }

  lemma FieldPrefixed(pool: string, s: string)
    ensures Prefixed(pool, s, Prepended(pool, s))
  {
  }

  /** Each texture field is rewritten in its own place, tile by tile. */
  lemma TexturesRewritten(pool: string, def: NodeDef)
    ensures var r := Renamed(pool, def);
      && r.palette == TexturePrepended(pool, def.palette)
      && EachRewritten(pool, def.tiles, r.tiles)
      && EachRewritten(pool, def.overlayTiles, r.overlayTiles)
      && EachRewritten(pool, def.specialTiles, r.specialTiles)
  {
    hide Prepended, TexturePrepended;
  }

  ghost predicate EachRewritten(pool: string, before: seq<string>, after: seq<string>) {
    |after| == |before| && forall k :: 0 <= k < |before| ==> after[k] == TexturePrepended(pool, before[k])
  }

  /** A file name that texture fields are found by: pattern characters with a media name, not sun or moon. */
  ghost predicate TextureFile(file: string) {
    TEXTURE_NAME.Within(file) && TEXTURE_NAME.HasMedia(file) && file != "sun.png" && file != "moon.png"
  }

  /** Each field that names a texture file names it by the name that the client gets the file under. */
  lemma TexturesFound(pool: string, def: NodeDef, file: string)
    requires TextureFile(file)
    ensures var r := Renamed(pool, def);
      && (def.palette == file ==> r.palette == pool + "_" + file)
      && (forall k :: 0 <= k < |def.tiles| && def.tiles[k] == file ==> r.tiles[k] == pool + "_" + file)
      && (forall k :: 0 <= k < |def.overlayTiles| && def.overlayTiles[k] == file ==>
            r.overlayTiles[k] == pool + "_" + file)
      && (forall k :: 0 <= k < |def.specialTiles| && def.specialTiles[k] == file ==>
            r.specialTiles[k] == pool + "_" + file)
    ensures Prepended(pool, file) == pool + "_" + file
  {
    TexturesRewritten(pool, def);
    FileFound(pool, file);
    hide TexturePrepended, Prepended, TextureFile;
  }

  lemma FileFound(pool: string, file: string)
    requires TextureFile(file)
    ensures TexturePrepended(pool, file) == Prepended(pool, file) == pool + "_" + file
  {
    if file == "" {
      assert false;
    } else {
      MediaFileAgreement(pool, file);
    }
  }

  /** The definition that the client gets for the k-th one, by its own server's media pool and number. */
  lemma MuxedIs(ds: seq<Tagged>, k: nat)
    requires k < |ds|
    ensures Prefixed(ds[k].pool, ds[k].def.name, Muxed(ds, k).name)
    ensures Muxed(ds, k).flowingAlt == Renamed(ds[k].pool, ds[k].def).flowingAlt
    ensures k < 125 ==> Muxed(ds, k).param0 == k
    ensures 125 <= k < 65533 ==> Muxed(ds, k).param0 == k + 3
    ensures |Muxed(ds, k).connectTo| == |ds[k].def.connectTo|
  {
    hide Counter, Renamed, Prefixed;
    FieldsPrefixed(ds[k].pool, ds[k].def);
    if k < 65533 {
      CounterBelow(k);
    }
  }

  /** The definitions are numbered connection by connection, and within one in their order. */
  lemma {:induction false} FlatConcat(a: seq<ContentConn>, b: seq<ContentConn>)
    ensures Flat(a + b) == Flat(a) + Flat(b)
  {
    if b == [] {
      assert a + b == a;
    } else {
      hide TagAll, Flat;
      var init, last := b[..|b| - 1], b[|b| - 1];
      FlatConcat(a, init);
      FlatDef(b);
      FlatDef(a + b);
      assert (a + b)[..|a + b| - 1] == a + init;
    }
  }

  lemma FlatDef(conns: seq<ContentConn>)
    requires conns != []
    ensures Flat(conns) == Flat(conns[..|conns| - 1]) + TagAll(conns[|conns| - 1], conns[|conns| - 1].nodeDefs)
  {
    hide TagAll;
  }

  lemma FlatOne(conns: seq<ContentConn>)
    requires |conns| == 1
    ensures var cc := conns[0];
      && |Flat(conns)| == |cc.nodeDefs|
      && forall k :: 0 <= k < |cc.nodeDefs| ==> Flat(conns)[k] == Tagged(cc.name, cc.mediaPool, cc.nodeDefs[k])
  {
    hide Flat;
    FlatDef(conns);
    NothingFlat();
    assert conns[..0] == [] && Flat(conns) == TagAll(conns[0], conns[0].nodeDefs);
  }

  lemma NothingFlat()
    ensures Flat([]) == []
  {
  }

  lemma RewrittenInjective(pool: string, a: seq<string>, b: seq<string>)
    ensures Rewritten(pool, a) == Rewritten(pool, b) <==> a == b
  {
    hide TexturePrepended;
    if Rewritten(pool, a) == Rewritten(pool, b) {
      assert |a| == |b|;
      forall k | 0 <= k < |a| ensures a[k] == b[k] {
        assert Rewritten(pool, a)[k] == Rewritten(pool, b)[k];
        TextureInjective(pool, a[k], b[k]);
      }
    }
  }

  /** The loops over the tiles. */
  method RewriteAll(pool: string, textures: seq<string>) returns (r: seq<string>)
    ensures r == Rewritten(pool, textures)
  {
    hide TexturePrepended, Prepended;
    r := [];
    for k := 0 to |textures|
      invariant |r| == k && forall j :: 0 <= j < k ==> r[j] == TexturePrepended(pool, textures[j])
    {
      var t := PrependRaw(pool, textures[k], true);
      r := r + [t];
    }
  }

  method Rename(pool: string, def: NodeDef) returns (r: NodeDef)
    ensures r == Renamed(pool, def)
  {
    hide TexturePrepended, Prepended, Rewritten;
    var name := PrependRaw(pool, def.name, false);
    var mesh := PrependRaw(pool, def.mesh, false);
    var tiles := RewriteAll(pool, def.tiles);
    var overlayTiles := RewriteAll(pool, def.overlayTiles);
    var specialTiles := RewriteAll(pool, def.specialTiles);
    var palette := PrependRaw(pool, def.palette, true);
    var flowingAlt := PrependRaw(pool, def.flowingAlt, false);
    var srcAlt := PrependRaw(pool, def.srcAlt, false);
    var footstepSnd := PrependRaw(pool, def.footstepSnd, false);
    var diggingSnd := PrependRaw(pool, def.diggingSnd, false);
    var dugSnd := PrependRaw(pool, def.dugSnd, false);
    var digPredict := PrependRaw(pool, def.digPredict, false);
    r := NodeDef(def.param0, name, mesh, tiles, overlayTiles, specialTiles, palette, def.connectTo, flowingAlt, srcAlt,
                 footstepSnd, diggingSnd, dugSnd, digPredict);
  }

  function Connected(ds: seq<Tagged>, server: string, ids: seq<Content>): (r: seq<Content>)
    ensures |r| == |ids|
    ensures forall j :: 0 <= j < |ids| ==> r[j] == Forward(ds, Origin(server, ids[j]))
  {
    seq(|ids|, j requires 0 <= j < |ids| => Forward(ds, Origin(server, ids[j])))
  }

  // -------------------------------------------------------------------------
  // The loops

  const EMPTY_FORWARD: map<Content, Content> := map[UNKNOWN := UNKNOWN, AIR := AIR, IGNORE := IGNORE]

  lemma LastDefSnoc(ds: seq<Tagged>, d: Tagged, o: Origin)
    ensures LastDef(ds + [d], o) == if d.From() == o then Some(|ds|) else LastDef(ds, o)
  {
    assert (ds + [d])[..|ds|] == ds;
  }

  lemma ForwardSnoc(ds: seq<Tagged>, d: Tagged, p0Map: Param0Map)
    requires ForwardTable(ds, p0Map)
    ensures var own := if d.name in p0Map then p0Map[d.name] else EMPTY_FORWARD;
      ForwardTable(ds + [d], p0Map[d.name := own[d.def.param0 := Counter(|ds|)]])
  {
    hide LastDef, Counter, Known, Row;
    forall s ensures Known(ds + [d], s) <==> Known(ds, s) || s == d.name {
      KnownSnoc(ds, d, s);
    }
    if d.name !in p0Map {
      RowEmpty(ds, d.name);
    }
    RowSnoc(ds, d, if d.name in p0Map then p0Map[d.name] else EMPTY_FORWARD);
    forall s | s in p0Map && s != d.name ensures Row(ds + [d], s, p0Map[s]) {
      RowOther(ds, d, s, p0Map[s]);
    }
  }

  lemma RowEmpty(ds: seq<Tagged>, server: string)
    requires !Known(ds, server)
    ensures Row(ds, server, EMPTY_FORWARD)
  {
    hide LastDef, Counter;
    forall l ensures LastDef(ds, Origin(server, l)).None? {
      LastDefKnown(ds, Origin(server, l));
    }
  }

  lemma RowSnoc(ds: seq<Tagged>, d: Tagged, row: map<Content, Content>)
    requires Row(ds, d.name, row)
    ensures Row(ds + [d], d.name, row[d.def.param0 := Counter(|ds|)])
  {
    hide LastDef, Counter;
    forall l ensures LastDef(ds + [d], Origin(d.name, l)) ==
        if d.def.param0 == l then Some(|ds|) else LastDef(ds, Origin(d.name, l)) {
      LastDefSnoc(ds, d, Origin(d.name, l));
    }
  }

  lemma RowOther(ds: seq<Tagged>, d: Tagged, server: string, row: map<Content, Content>)
    requires Row(ds, server, row) && server != d.name
    ensures Row(ds + [d], server, row)
  {
    hide LastDef, Counter;
    forall l ensures LastDef(ds + [d], Origin(server, l)) == LastDef(ds, Origin(server, l)) {
      LastDefSnoc(ds, d, Origin(server, l));
    }
  }

  lemma KnownSnoc(ds: seq<Tagged>, d: Tagged, s: string)
    ensures Known(ds + [d], s) <==> Known(ds, s) || s == d.name
  {
    var ds' := ds + [d];
    assert ds'[|ds|] == d;
    if Known(ds, s) {
      var k :| 0 <= k < |ds| && ds[k].name == s;
      assert ds'[k].name == s;
    }
  }

  lemma LastDefKnown(ds: seq<Tagged>, o: Origin)
    ensures LastDef(ds, o).Some? ==> Known(ds, o.name)
  {
    if LastDef(ds, o).Some? {
      assert ds[LastDef(ds, o).value].name == o.name;
    }
  }

  lemma BackwardSnoc(ds: seq<Tagged>, d: Tagged, p0SrvMap: Param0SrvMap)
    requires BackwardTable(ds, p0SrvMap)
    ensures BackwardTable(ds + [d], p0SrvMap[Counter(|ds|) := d.From()])
  {
    hide Counter, LastOwner;
    var ds' := ds + [d];
    forall id: Content
      ensures LastOwner(|ds'|, id) == if Counter(|ds|) == id then Some(|ds|) else LastOwner(|ds|, id)
      ensures id != Counter(|ds|) ==> Backward(ds', id) == Backward(ds, id)
    {
      LastOwnerSnoc(|ds|, id);
    }
    CounterCycles(|ds|);
    assert Backward(ds', Counter(|ds|)) == d.From();
  }

  lemma LastOwnerSnoc(n: nat, id: Content)
    ensures LastOwner(n + 1, id) == if Counter(n) == id then Some(n) else LastOwner(n, id)
  {
    hide Counter;
  }

  method MuxNodeDefs(conns: seq<ContentConn>)
    returns (nodeDefs: seq<NodeDef>, p0Map: Param0Map, p0SrvMap: Param0SrvMap)
    ensures ForwardTable(Flat(conns), p0Map)
    ensures BackwardTable(Flat(conns), p0SrvMap)
    ensures |nodeDefs| == |Flat(conns)|
    ensures forall k :: 0 <= k < |nodeDefs| ==> nodeDefs[k] == Muxed(Flat(conns), k)
  {
    nodeDefs := [];
    var param0: Content := 0;
    p0Map := map[];
    p0SrvMap := map[UNKNOWN := Origin("", UNKNOWN), AIR := Origin("", AIR), IGNORE := Origin("", IGNORE)];
    ghost var ds: seq<Tagged> := [];
    for i := 0 to |conns|
      invariant ds == Flat(conns[..i])
      invariant ForwardTable(ds, p0Map) && BackwardTable(ds, p0SrvMap)
      invariant |nodeDefs| == |ds| && param0 == Counter(|ds|)
      invariant forall k :: 0 <= k < |ds| ==> nodeDefs[k] == Muxed(ds, k)
    {
      var cc := conns[i];
      ghost var before := ds;
      for j := 0 to |cc.nodeDefs|
        invariant ds == before + TagAll(cc, cc.nodeDefs[..j])
        invariant ForwardTable(ds, p0Map) && BackwardTable(ds, p0SrvMap)
        invariant |nodeDefs| == |ds| && param0 == Counter(|ds|)
        invariant forall k :: 0 <= k < |ds| ==> nodeDefs[k] == Muxed(ds, k)
      {
        nodeDefs, p0Map, p0SrvMap, param0 := MuxOne(cc, cc.nodeDefs[j], nodeDefs, p0Map, p0SrvMap, param0, ds);
        ds := ds + [Tagged(cc.name, cc.mediaPool, cc.nodeDefs[j])];
        assert ds == before + TagAll(cc, cc.nodeDefs[..j + 1]);
      }
      assert cc.nodeDefs[..|cc.nodeDefs|] == cc.nodeDefs;
      assert conns[..i + 1][..i] == conns[..i];
    }
    assert conns[..|conns|] == conns;
  }

  /** The body of the inner loop. */
  method MuxOne(cc: ContentConn, def: NodeDef, nodeDefs: seq<NodeDef>, p0Map: Param0Map,
                p0SrvMap: Param0SrvMap, param0: Content, ghost ds: seq<Tagged>)
    returns (nodeDefs': seq<NodeDef>, p0Map': Param0Map, p0SrvMap': Param0SrvMap, param0': Content)
    requires ForwardTable(ds, p0Map) && BackwardTable(ds, p0SrvMap)
    requires |nodeDefs| == |ds| && param0 == Counter(|ds|)
    requires forall k :: 0 <= k < |ds| ==> nodeDefs[k] == Muxed(ds, k)
    ensures var ds' := ds + [Tagged(cc.name, cc.mediaPool, def)];
      && ForwardTable(ds', p0Map') && BackwardTable(ds', p0SrvMap')
      && |nodeDefs'| == |ds'| && param0' == Counter(|ds'|)
      && forall k :: 0 <= k < |ds'| ==> nodeDefs'[k] == Muxed(ds', k)
  {
    hide LastDef, LastOwner, Counter, ForwardTable, BackwardTable, Known, Renamed;
    ghost var d := Tagged(cc.name, cc.mediaPool, def);
    ghost var ds' := ds + [d];
    ForwardSnoc(ds, d, p0Map);
    BackwardSnoc(ds, d, p0SrvMap);
    var own := if cc.name in p0Map then p0Map[cc.name] else EMPTY_FORWARD;
    own := own[def.param0 := param0];
    p0Map' := p0Map[cc.name := own];
    p0SrvMap' := p0SrvMap[param0 := Origin(cc.name, def.param0)];
    assert cc.name in p0Map';
    var connectTo := ConnectAll(p0Map', cc.name, def.connectTo, ds');
    var renamed := Rename(cc.mediaPool, def);
    nodeDefs' := nodeDefs + [renamed.(param0 := param0, connectTo := connectTo)];
    param0' := (param0 + 1) % 0x1_0000;
    if UNKNOWN <= param0' <= IGNORE {
      param0' := IGNORE + 1;
    }
    MuxedSnoc(ds, d);
    CounterDef(|ds'|);
  }

  lemma MuxedSnoc(ds: seq<Tagged>, d: Tagged)
    ensures forall k :: 0 <= k < |ds| ==> Muxed(ds + [d], k) == Muxed(ds, k)
    ensures Muxed(ds + [d], |ds|) ==
      Renamed(d.pool, d.def).(param0 := Counter(|ds|), connectTo := Connected(ds + [d], d.name, d.def.connectTo))
  {
    hide Counter, Renamed, Connected;
    var ds' := ds + [d];
    assert ds'[..|ds| + 1] == ds' && ds'[|ds|] == d;
    forall k | 0 <= k < |ds| ensures Muxed(ds', k) == Muxed(ds, k) {
      assert ds'[..k + 1] == ds[..k + 1] && ds'[k] == ds[k];
    }
  }

  /** A missing key of a Go map reads as the zero value. */
  method ConnectAll(p0Map: Param0Map, server: string, ids: seq<Content>, ghost ds: seq<Tagged>)
    returns (r: seq<Content>)
    requires ForwardTable(ds, p0Map) && server in p0Map
    ensures r == Connected(ds, server, ids)
  {
    hide LastDef, Counter, Known;
    r := [];
    for k := 0 to |ids|
      invariant |r| == k
      invariant forall j :: 0 <= j < k ==> r[j] == Forward(ds, Origin(server, ids[j]))
    {
      r := r + [GlobalParam0(p0Map, server, ids[k])];
      assert Row(ds, server, p0Map[server]);
    }
  }

  // -------------------------------------------------------------------------
  // Translation

  /** A server without a table leaves the id as it is. */
  function GlobalParam0(p0Map: Param0Map, server: string, p0: Content): Content {
    if server in p0Map then
      if p0 in p0Map[server] then p0Map[server][p0] else 0
    else p0
  }

  function SrvParam0(p0SrvMap: Param0SrvMap, p0: Content): Origin {
    if p0 in p0SrvMap then p0SrvMap[p0] else Origin("", 0)
  }

  /** Ids without an entry: a server without definitions keeps its ids, others read as 0. */
  lemma UndefinedIs(ds: seq<Tagged>, p0Map: Param0Map, server: string, c: Content)
    requires ForwardTable(ds, p0Map) && forall k :: 0 <= k < |ds| ==> ds[k].From() != Origin(server, c)
    ensures GlobalParam0(p0Map, server, c) ==
      if (forall k :: 0 <= k < |ds| ==> ds[k].name != server) || 125 <= c <= 127 then c else 0
  {
    if k :| 0 <= k < |ds| && ds[k].name == server {
      assert Known(ds, server);
      assert Row(ds, server, p0Map[server]);
    }
  }

  /** Each server defines a local id once, and never a reserved one. */
  ghost predicate WellFormed(ds: seq<Tagged>) {
    && (forall i, j :: 0 <= i < j < |ds| ==> ds[i].From() != ds[j].From())
    && (forall i :: 0 <= i < |ds| ==> !Reserved(ds[i].def.param0))
  }

  /** The connections are distinct servers, each with well-formed definitions of its own. */
  ghost predicate WellFormedConns(conns: seq<ContentConn>) {
    && (forall i, j :: 0 <= i < j < |conns| ==> conns[i].name != conns[j].name)
    && (forall i :: 0 <= i < |conns| ==> WellFormedDefs(conns[i].nodeDefs))
  }

  ghost predicate WellFormedDefs(defs: seq<NodeDef>) {
    && (forall i, j :: 0 <= i < j < |defs| ==> defs[i].param0 != defs[j].param0)
    && (forall i :: 0 <= i < |defs| ==> !Reserved(defs[i].param0))
  }

  /** One content connection per server suffices. */
  lemma {:induction false} FlatWellFormed(conns: seq<ContentConn>)
    requires WellFormedConns(conns)
    ensures WellFormed(Flat(conns))
    ensures forall d: Tagged :: d in Flat(conns) ==> exists i :: 0 <= i < |conns| && conns[i].name == d.name
  {
    if conns == [] {
    } else {
      var init, last := conns[..|conns| - 1], conns[|conns| - 1];
      FlatWellFormed(init);
      var ds, own := Flat(init), TagAll(last, last.nodeDefs);
      forall d: Tagged | d in ds + own ensures exists i :: 0 <= i < |conns| && conns[i].name == d.name {
        if d in ds {
          var i :| 0 <= i < |init| && init[i].name == d.name;
          assert conns[i].name == d.name;
        } else {
          assert conns[|conns| - 1].name == d.name;
        }
      }
      forall d: Tagged | d in ds ensures d.name != last.name {
        var i :| 0 <= i < |init| && init[i].name == d.name;
        assert conns[i] == init[i];
      }
      assert WellFormedDefs(last.nodeDefs);
    }
  }

  lemma GlobalOfDefined(ds: seq<Tagged>, p0Map: Param0Map, k: nat)
    requires ForwardTable(ds, p0Map) && WellFormed(ds) && k < |ds|
    ensures LastDef(ds, ds[k].From()) == Some(k)
    ensures GlobalParam0(p0Map, ds[k].name, ds[k].def.param0) == Counter(k)
  {
    assert Known(ds, ds[k].name);
    assert ds[k].From() == Origin(ds[k].name, ds[k].def.param0);
  }

  ghost predicate ComesBack(p0Map: Param0Map, p0SrvMap: Param0SrvMap, o: Origin) {
    SrvParam0(p0SrvMap, GlobalParam0(p0Map, o.name, o.param0)) == o
  }

  /** Every node survives the way to the client and back exactly if the ids suffice. */
  lemma RoundTripExactly(ds: seq<Tagged>, p0Map: Param0Map, p0SrvMap: Param0SrvMap)
    requires ForwardTable(ds, p0Map) && BackwardTable(ds, p0SrvMap) && WellFormed(ds)
    ensures (forall k :: 0 <= k < |ds| ==> ComesBack(p0Map, p0SrvMap, ds[k].From())) <==> |ds| <= CAPACITY
  {
    hide LastDef, LastOwner, Counter;
    CounterInjectiveExactly(|ds|);
    if |ds| <= CAPACITY {
      forall k | 0 <= k < |ds| ensures ComesBack(p0Map, p0SrvMap, ds[k].From()) {
        GlobalOfDefined(ds, p0Map, k);
        OwnerOf(|ds|, k);
      }
    } else {
      GlobalOfDefined(ds, p0Map, 0);
      OverwrittenOwner(|ds|);
      assert !ComesBack(p0Map, p0SrvMap, ds[0].From());
    }
  }

  lemma {:induction false} OwnerOf(n: nat, k: nat)
    requires k < n <= CAPACITY
    ensures LastOwner(n, Counter(k)) == Some(k)
  {
    hide Counter;
    if k < n - 1 {
      CounterInjectiveExactly(n);
      assert Counter(k) != Counter(n - 1);
      OwnerOf(n - 1, k);
    }
  }

  lemma OverwrittenOwner(n: nat)
    requires n > CAPACITY
    ensures LastOwner(n, Counter(0)).Some? && LastOwner(n, Counter(0)).value > 0
  {
    hide Counter;
    CounterWraps(CAPACITY);
    assert Counter(CAPACITY) == Counter(0);
  }

  /** The reverse direction holds for every id in the table, however many definitions there are. */
  lemma BackAndForth(ds: seq<Tagged>, p0Map: Param0Map, p0SrvMap: Param0SrvMap, id: Content)
    requires ForwardTable(ds, p0Map) && BackwardTable(ds, p0SrvMap) && WellFormed(ds)
    requires id in p0SrvMap && !Reserved(id)
    ensures var o := SrvParam0(p0SrvMap, id); GlobalParam0(p0Map, o.name, o.param0) == id
  {
    var k := LastOwner(|ds|, id).value;
    GlobalOfDefined(ds, p0Map, k);
  }

  /** The reserved ids mean the same everywhere. */
  lemma ReservedFixed(ds: seq<Tagged>, p0Map: Param0Map, p0SrvMap: Param0SrvMap, server: string, c: Content)
    requires ForwardTable(ds, p0Map) && BackwardTable(ds, p0SrvMap) && WellFormed(ds) && Reserved(c)
    ensures GlobalParam0(p0Map, server, c) == c
    ensures SrvParam0(p0SrvMap, c) == Origin("", c)
  {
    ReservedForward(ds, p0Map, server, c);
    ReservedBackward(ds, p0SrvMap, c);
  }

  lemma ReservedForward(ds: seq<Tagged>, p0Map: Param0Map, server: string, c: Content)
    requires ForwardTable(ds, p0Map) && WellFormed(ds) && Reserved(c)
    ensures GlobalParam0(p0Map, server, c) == c
  {
    hide LastDef;
    forall i | 0 <= i < |ds| ensures ds[i].From() != Origin(server, c) {
      assert !Reserved(ds[i].def.param0);
    }
  }

  lemma ReservedBackward(ds: seq<Tagged>, p0SrvMap: Param0SrvMap, c: Content)
    requires BackwardTable(ds, p0SrvMap) && Reserved(c)
    ensures SrvParam0(p0SrvMap, c) == Origin("", c)
  {
    hide Counter;
    var k := LastOwner(|ds|, c);
    if k.Some? {
      CounterCycles(k.value);
    }
  }

  /** The ids that a server's map blocks may contain. */
  ghost predicate Usable(ds: seq<Tagged>, server: string, c: Content) {
    Reserved(c) || LastDef(ds, Origin(server, c)).Some?
  }

  /** Two cells look alike to the client exactly if they are alike on the server. */
  lemma TranslationFaithful(ds: seq<Tagged>, p0Map: Param0Map, p0SrvMap: Param0SrvMap,
                            server: string, a: Content, b: Content)
    requires ForwardTable(ds, p0Map) && BackwardTable(ds, p0SrvMap) && WellFormed(ds) && |ds| <= CAPACITY
    requires Usable(ds, server, a) && Usable(ds, server, b)
    ensures GlobalParam0(p0Map, server, a) == GlobalParam0(p0Map, server, b) <==> a == b
  {
    Comeback(ds, p0Map, p0SrvMap, server, a);
    Comeback(ds, p0Map, p0SrvMap, server, b);
  }

  lemma Comeback(ds: seq<Tagged>, p0Map: Param0Map, p0SrvMap: Param0SrvMap, server: string, c: Content)
    requires ForwardTable(ds, p0Map) && BackwardTable(ds, p0SrvMap) && WellFormed(ds) && |ds| <= CAPACITY
    requires Usable(ds, server, c)
    ensures SrvParam0(p0SrvMap, GlobalParam0(p0Map, server, c)).param0 == c
  {
    hide LastDef, LastOwner;
    if Reserved(c) {
      ReservedFixed(ds, p0Map, p0SrvMap, server, c);
    } else {
      RoundTripExactly(ds, p0Map, p0SrvMap);
      var k := LastDef(ds, Origin(server, c)).value;
      assert ComesBack(p0Map, p0SrvMap, ds[k].From());
    }
  }

  /** A whole block reaches the client with equal cells equal and different cells different. */
  lemma BlockFaithful(conns: seq<ContentConn>, p0Map: Param0Map, p0SrvMap: Param0SrvMap,
                      server: string, blk: seq<Content>, sent: seq<Content>)
    requires WellFormedConns(conns) && |Flat(conns)| <= CAPACITY
    requires ForwardTable(Flat(conns), p0Map) && BackwardTable(Flat(conns), p0SrvMap)
    requires forall c :: c in blk ==> Usable(Flat(conns), server, c)
    requires |sent| == |blk| && forall i :: 0 <= i < |blk| ==> sent[i] == GlobalParam0(p0Map, server, blk[i])
    ensures forall i, j :: 0 <= i < |blk| && 0 <= j < |blk| ==> (sent[i] == sent[j] <==> blk[i] == blk[j])
  {
    hide Usable, ForwardTable, BackwardTable, WellFormed, GlobalParam0;
    FlatWellFormed(conns);
    forall i, j | 0 <= i < |blk| && 0 <= j < |blk| ensures sent[i] == sent[j] <==> blk[i] == blk[j] {
      TranslationFaithful(Flat(conns), p0Map, p0SrvMap, server, blk[i], blk[j]);
    }
  }

  /** The loop over the cells of a block that is passed on to the client. */
  method TranslateBlock(p0Map: Param0Map, server: string, blk: array<Content>)
    modifies blk
    ensures forall i :: 0 <= i < blk.Length ==> blk[i] == GlobalParam0(p0Map, server, old(blk[i]))
  {
    for i := 0 to blk.Length
      invariant forall j :: 0 <= j < i ==> blk[j] == GlobalParam0(p0Map, server, old(blk[j]))
      invariant forall j :: i <= j < blk.Length ==> blk[j] == old(blk[j])
    {
      blk[i] := GlobalParam0(p0Map, server, blk[i]);
    }
  }

  /**
   A `ConnectTo` entry gets the id that the client will see exactly unless the node it names
   is defined later by the same server: such an entry becomes 0, another node's id.
   */
  lemma ConnectToExactly(ds: seq<Tagged>, p0Map: Param0Map, k: nat, j: nat)
    requires ForwardTable(ds, p0Map) && WellFormed(ds) && |ds| <= CAPACITY
    requires k < |ds| && j < |ds[k].def.connectTo|
    ensures var target := Origin(ds[k].name, ds[k].def.connectTo[j]);
      Muxed(ds, k).connectTo[j] == GlobalParam0(p0Map, target.name, target.param0)
      <==> !exists i :: k < i < |ds| && ds[i].From() == target
  {
    hide LastDef, Counter;
    var o := Origin(ds[k].name, ds[k].def.connectTo[j]);
    assert Known(ds, o.name);
    PrefixLastDef(ds, k + 1, o);
    DefinedLater(ds, k, o);
    match LastDef(ds, o) {
      case None =>
      case Some(i) => LaterLooksUndefined(ds, p0Map, i, k);
    }
  }

  lemma DefinedLater(ds: seq<Tagged>, k: nat, o: Origin)
    requires WellFormed(ds)
    ensures (exists i :: k < i < |ds| && ds[i].From() == o) <==>
            LastDef(ds, o).Some? && LastDef(ds, o).value > k
  {
  }

  lemma LaterLooksUndefined(ds: seq<Tagged>, p0Map: Param0Map, i: nat, k: nat)
    requires ForwardTable(ds, p0Map) && WellFormed(ds) && |ds| <= CAPACITY && i < |ds|
    ensures GlobalParam0(p0Map, ds[i].name, ds[i].def.param0) == Counter(i)
    ensures !Reserved(ds[i].def.param0)
    ensures i > 0 ==> Counter(i) != 0
  {
    hide Counter;
    GlobalOfDefined(ds, p0Map, i);
    CounterBelow(i);
  }

  lemma {:induction false} PrefixLastDef(ds: seq<Tagged>, n: nat, o: Origin)
    requires n <= |ds| && WellFormed(ds)
    ensures LastDef(ds[..n], o) == match LastDef(ds, o)
      case None => None
      case Some(i) => if i < n then Some(i) else None
  {
    if n == |ds| {
      assert ds[..n] == ds;
    } else {
      var init := ds[..|ds| - 1];
      assert init[..n] == ds[..n];
      PrefixLastDef(init, n, o);
    }
  }
}
