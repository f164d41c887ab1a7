/**
 The ban file of the SQLite and PostgreSQL authentication backends: a text of
 `address|name` lines that every operation reads whole and writes whole.
 */
module Bans {
  import opened Wrappers
  import opened Text

  type BanMap = map<string, string>

  datatype ScanError = LineTooLong

  datatype BanEntry = BanEntry(addr: string, name: string)

  /** The longest line that `bufio.Scanner` accepts with its default buffer. */
  const MAX_LINE := 65535

  function DropCR(line: string): string {
    if line != "" && line[|line| - 1] == '\r' then line[..|line| - 1] else line
  }

  /** Scans the rest of the file into the map collected so far. */
  function ReadFrom(text: string, bans: BanMap): Outcome<BanMap, ScanError>
    decreases |text|
  {
    if text == "" then Ok(bans)
    else
      var n := Before(text, '\n');
      if n > MAX_LINE then Err(LineTooLong)
      else
        var parts := Split(DropCR(text[..n]), '|');
        if |parts| < 2 then Panic
        else ReadFrom(if n < |text| then text[n + 1..] else "", bans[parts[0] := parts[1]])
  }

  function Read(text: string): Outcome<BanMap, ScanError> {
    ReadFrom(text, map[])
  }

  function Line(addr: string, name: string): string {
    addr + "|" + name + "\n"
  }

  /** The file written for the given addresses in this order. */
  function Render(order: seq<string>, bans: BanMap): string
    requires forall a :: a in order ==> a in bans
  {
    if order == [] then "" else Line(order[0], bans[order[0]]) + Render(order[1..], bans)
  }

  /** A possible iteration order of the map. */
  ghost predicate IsOrder(order: seq<string>, bans: BanMap) {
    && (forall i, j :: 0 <= i < j < |order| ==> order[i] != order[j])
    && (forall a :: a in order <==> a in bans)
  }

  predicate Plain(addr: string, name: string) {
    Free(addr, '|') && Free(addr, '\n') && Free(name, '|') && Free(name, '\n')
  }

  predicate Fits(addr: string, name: string) {
    |addr| + 1 + |name| <= MAX_LINE
  }

  /** What the line format can hold. */
  predicate Storable(addr: string, name: string) {
    Plain(addr, name) && Fits(addr, name) && DropCR(name) == name
  }

  ghost predicate AllPlain(bans: BanMap) {
    forall a :: a in bans ==> Plain(a, bans[a])
  }

  ghost predicate AllStorable(bans: BanMap) {
    forall a :: a in bans ==> Storable(a, bans[a])
  }

  /** A plain entry occupies one line, which the scanner takes whole. */
  lemma ReadLine(addr: string, name: string, rest: string, acc: BanMap)
    requires Plain(addr, name)
    ensures ReadFrom(Line(addr, name) + rest, acc) ==
            if Fits(addr, name) then ReadFrom(rest, acc[addr := DropCR(name)]) else Err(LineTooLong)
  {
    var text, line := Line(addr, name) + rest, addr + "|" + name;
    assert text == line + "\n" + rest;
    assert Free(line, '\n');
    BeforeJoined(line, '\n', rest);
    assert text[..|line|] == line && text[|line| + 1..] == rest;
    var cut := DropCR(name);
    assert DropCR(line) == addr + "|" + cut;
    assert Free(cut, '|');
    SplitJoined(addr, '|', cut);
    SplitJoined(cut, '|', "");
  }

  predicate AllFit(order: seq<string>, bans: BanMap)
    requires forall a :: a in order ==> a in bans
  {
    forall a :: a in order ==> Fits(a, bans[a])
  }

  /** The entries in the order, each without a carriage return at the end of its line. */
  ghost function Stripped(order: seq<string>, bans: BanMap): BanMap
    requires forall a :: a in order ==> a in bans
  {
    map a | a in order :: DropCR(bans[a])
  }

  lemma StrippedCons(order: seq<string>, bans: BanMap, acc: BanMap)
    requires order != [] && forall a :: a in order ==> a in bans
    ensures acc[order[0] := DropCR(bans[order[0]])] + Stripped(order[1..], bans) == acc + Stripped(order, bans)
    ensures AllFit(order, bans) <==> Fits(order[0], bans[order[0]]) && AllFit(order[1..], bans)
  {
    assert forall a :: a in order <==> a == order[0] || a in order[1..];
  }

  /** What a written file of plain entries reads as. */
  lemma {:induction false} ReadRendered(order: seq<string>, bans: BanMap, acc: BanMap)
    requires forall a :: a in order ==> a in bans
    requires forall a :: a in order ==> Plain(a, bans[a])
    ensures ReadFrom(Render(order, bans), acc) ==
            if AllFit(order, bans) then Ok(acc + Stripped(order, bans)) else Err(LineTooLong)
    decreases |order|
  {
    if order == [] {
      assert acc + Stripped(order, bans) == acc;
    } else {
      var first, rest := order[0], order[1..];
      ReadLine(first, bans[first], Render(rest, bans), acc);
      ReadRendered(rest, bans, acc[first := DropCR(bans[first])]);
      StrippedCons(order, bans, acc);
    }
  }

  /** Whatever is read contains neither the separator nor a line break. */
  lemma {:induction false} ReadIsPlain(text: string, acc: BanMap)
    requires AllPlain(acc)
    ensures ReadFrom(text, acc).Ok? ==> AllPlain(ReadFrom(text, acc).value)
    decreases |text|
  {
    if text == "" {
    } else {
      var n := Before(text, '\n');
      var line := DropCR(text[..n]);
      FreeOfBreak(text[..n]);
      hide Split, DropCR;
      var parts := Split(line, '|');
      if n <= MAX_LINE && |parts| >= 2 {
        SplitPartsFree(line, '|', '\n');
        assert parts[0] in parts && parts[1] in parts;
        ReadIsPlain(if n < |text| then text[n + 1..] else "", acc[parts[0] := parts[1]]);
      }
    }
  }

  lemma FreeOfBreak(line: string)
    requires Free(line, '\n')
    ensures Free(DropCR(line), '\n')
  {
  }

  /** Parts of a split string have no characters that the string does not have. */
  lemma {:induction false} SplitPartsFree(s: string, c: char, d: char)
    requires Free(s, d)
    ensures forall p :: p in Split(s, c) ==> Free(p, d)
    decreases |s|
  {
    var n := Before(s, c);
    if n < |s| {
      SplitPartsFree(s[n + 1..], c, d);
    }
  }

  /** A written map is read back unchanged exactly when the line format can hold every entry. */
  lemma RoundTripExactly(order: seq<string>, bans: BanMap)
    requires IsOrder(order, bans)
    ensures Read(Render(order, bans)) == Ok(bans) <==> AllStorable(bans)
  {
    if AllPlain(bans) {
      ReadRendered(order, bans, map[]);
      assert map[] + Stripped(order, bans) == Stripped(order, bans);
      StrippedIsAll(order, bans);
    } else {
      ReadIsPlain(Render(order, bans), map[]);
    }
  }

  /** The text is what writing the map produces, in some order. */
  ghost predicate Wrote(text: string, bans: BanMap) {
    exists order :: IsOrder(order, bans) && text == Render(order, bans)
  }

  lemma StrippedIsAll(order: seq<string>, bans: BanMap)
    requires IsOrder(order, bans) && AllPlain(bans)
    ensures AllStorable(bans) <==> AllFit(order, bans) && Stripped(order, bans) == bans
  {
    if AllFit(order, bans) && Stripped(order, bans) == bans {
      forall a | a in bans ensures Storable(a, bans[a]) {
        assert Stripped(order, bans)[a] == DropCR(bans[a]);
      }
    }
  }

  /** The entries that remain when everything known under `id` is lifted. */
  ghost function Without(bans: BanMap, id: string): BanMap {
    map a | a in bans && a != id && bans[a] != id :: bans[a]
  }

  /** Lifting a ban takes away everything under the address or name, and only that. */
  lemma LiftedExactly(bans: BanMap, id: string)
    ensures var rest := Without(bans, id);
      && (forall a :: a in rest ==> a != id && rest[a] != id)
      && (forall a :: a in bans && a != id && bans[a] != id ==> a in rest && rest[a] == bans[a])
      && (forall a :: a in rest ==> a in bans)
  {
  }

  /** A written file consists of one line per entry: the address, a vertical bar and the name. */
  lemma {:induction false} LinesSpelled(order: seq<string>, bans: BanMap, k: nat)
    requires k < |order| && forall a :: a in order ==> a in bans
    ensures Render(order, bans) ==
      Render(order[..k], bans) + (order[k] + "|" + bans[order[k]] + "\n") + Render(order[k + 1..], bans)
  {
    if k == 0 {
      assert order[..0] == [];
    } else {
      var first, rest := order[0], order[1..];
      LinesSpelled(rest, bans, k - 1);
      assert order[..k] == [first] + rest[..k - 1] && order[..k][1..] == rest[..k - 1];
      assert order[k] == rest[k - 1] && order[k + 1..] == rest[k..];
      Chain(Line(first, bans[first]), Render(rest[..k - 1], bans), Line(order[k], bans[order[k]]),
            Render(order[k + 1..], bans));
    }
  }

  lemma Chain(a: string, b: string, c: string, d: string)
    ensures a + (b + c + d) == (a + b) + c + d
  {
  }

  /** One line, read on its own; the longest line that is accepted has 65535 bytes. */
  lemma LineRead(addr: string, name: string)
    requires Free(addr, '|') && Free(addr, '\n') && Free(name, '|') && Free(name, '\n')
    requires name == "" || name[|name| - 1] != '\r'
    ensures Read(addr + "|" + name + "\n") ==
      if |addr| + 1 + |name| <= 65535 then Ok(map[addr := name]) else Err(LineTooLong)
  {
    ReadLine(addr, name, "", map[]);
    assert Line(addr, name) + "" == addr + "|" + name + "\n";
  }

  /** Parts behind a second vertical bar are ignored, and a line without any makes the reader panic. */
  lemma PartsRead(addr: string, name: string, rest: string)
    requires Free(addr, '|') && Free(addr, '\n') && Free(name, '|') && Free(name, '\n') && Free(rest, '\n')
    requires |addr| + |name| + |rest| + 2 <= 65535
    ensures Read(addr + "|" + name + "|" + rest + "\n") == Ok(map[addr := name])
    ensures addr != "" && addr[|addr| - 1] != '\r' ==> Read(addr + "\n") == Panic
  {
    hide Read, Split, DropCR;
    var line, cut := addr + "|" + name + "|" + rest, DropCR(rest);
    OneLine(line);
    CutEnd(addr + "|" + name + "|", rest);
    assert line == (addr + "|" + name + "|") + rest;
    assert (addr + "|" + name + "|") + cut == addr + "|" + (name + "|" + cut);
    SplitJoined(addr, '|', name + "|" + cut);
    SplitJoined(name, '|', cut);
    BareLine(addr);
  }

  lemma CutEnd(a: string, b: string)
    requires a != "" && a[|a| - 1] != '\r'
    ensures DropCR(a + b) == a + DropCR(b)
  {
  }

  lemma BareLine(line: string)
    requires Free(line, '|') && Free(line, '\n') && |line| <= 65535
    ensures line != "" && line[|line| - 1] != '\r' ==> Read(line + "\n") == Panic
  {
    hide Read, Split;
    OneLine(line);
    SplitJoined(line, '|', "");
  }

  lemma OneLine(line: string)
    requires Free(line, '\n') && |line| <= 65535
    ensures var parts := Split(DropCR(line), '|');
      Read(line + "\n") == if |parts| < 2 then Panic else Ok(map[parts[0] := parts[1]])
  {
    hide Split, DropCR, Before;
    var text := line + "\n";
    assert text == line + "\n" + "";
    BeforeJoined(line, '\n', "");
    assert text[..|line|] == line && text[|line| + 1..] == "";
    var parts := Split(DropCR(line), '|');
    if |parts| >= 2 {
      EmptyRead(map[parts[0] := parts[1]]);
    }
  }

  lemma EmptyRead(bans: BanMap)
    ensures ReadFrom("", bans) == Ok(bans)
  {
  }

  function Imported(bans: BanMap, list: seq<BanEntry>): BanMap
    decreases |list|
  {
    if list == [] then bans else Imported(bans[list[0].addr := list[0].name], list[1..])
  }

  /** A list that holds every entry of the map exactly once. */
  ghost predicate IsExport(list: seq<BanEntry>, bans: BanMap) {
    && (forall i, j :: 0 <= i < j < |list| ==> list[i].addr != list[j].addr)
    && (forall b :: b in list ==> b.addr in bans && bans[b.addr] == b.name)
    && (forall a :: a in bans ==> BanEntry(a, bans[a]) in list)
  }

  /** Importing adds the listed addresses and drops none. */
  lemma {:induction false} ImportedKeys(bans: BanMap, list: seq<BanEntry>)
    ensures forall a :: a in Imported(bans, list) <==> a in bans || exists b :: b in list && b.addr == a
    decreases |list|
  {
    if list == [] {
    } else {
      hide Imported;
      ImportedDef(bans, list);
      ImportedKeys(bans[list[0].addr := list[0].name], list[1..]);
      assert list == [list[0]] + list[1..];
    }
  }

  lemma {:induction false} ImportedKept(bans: BanMap, list: seq<BanEntry>, addr: string)
    requires addr in bans && forall b :: b in list ==> b.addr != addr
    ensures addr in Imported(bans, list) && Imported(bans, list)[addr] == bans[addr]
    decreases |list|
  {
    if list == [] {
    } else {
      hide Imported;
      ImportedDef(bans, list);
      assert list[0] in list;
      ImportedKept(bans[list[0].addr := list[0].name], list[1..], addr);
    }
  }

  /** The last entry listed for an address wins. */
  lemma {:induction false} ImportedValue(bans: BanMap, list: seq<BanEntry>, k: nat)
    requires k < |list|
    requires forall j :: k < j < |list| ==> list[j].addr != list[k].addr
    ensures list[k].addr in Imported(bans, list) && Imported(bans, list)[list[k].addr] == list[k].name
    decreases |list|
  {
    hide Imported;
    var bans', rest := bans[list[0].addr := list[0].name], list[1..];
    ImportedDef(bans, list);
    if k == 0 {
      forall b | b in rest ensures b.addr != list[0].addr {
        var i :| 0 <= i < |rest| && rest[i] == b;
        assert list[i + 1] == b;
      }
      ImportedKept(bans', rest, list[0].addr);
    } else {
      assert rest[k - 1] == list[k];
      forall j | k - 1 < j < |rest| ensures rest[j].addr != rest[k - 1].addr {
        assert rest[j] == list[j + 1];
      }
      ImportedValue(bans', rest, k - 1);
    }
  }

  lemma ImportedDef(bans: BanMap, list: seq<BanEntry>)
    requires list != []
    ensures Imported(bans, list) == Imported(bans[list[0].addr := list[0].name], list[1..])
  {
  }

  /** Importing an export into an empty store reproduces the exported map. */
  lemma ImportExport(list: seq<BanEntry>, bans: BanMap)
    requires IsExport(list, bans)
    ensures Imported(map[], list) == bans
  {
    hide Imported;
    ImportedKeys(map[], list);
    forall a ensures a in bans <==> a in Imported(map[], list) {
      if a in bans {
        assert BanEntry(a, bans[a]) in list;
      }
    }
    forall a | a in bans ensures Imported(map[], list)[a] == bans[a] {
      assert BanEntry(a, bans[a]) in list;
      var k :| 0 <= k < |list| && list[k] == BanEntry(a, bans[a]);
      ImportedValue(map[], list, k);
    }
  }

  lemma {:induction false} ImportedStorable(bans: BanMap, list: seq<BanEntry>)
    requires AllStorable(bans) && forall b :: b in list ==> Storable(b.addr, b.name)
    ensures AllStorable(Imported(bans, list))
    decreases |list|
  {
    if list == [] {
    } else {
      assert list[0] in list;
      ImportedStorable(bans[list[0].addr := list[0].name], list[1..]);
    }
  }

  lemma OneMoreStorable(bans: BanMap, b: BanEntry)
    requires AllStorable(bans) && Storable(b.addr, b.name)
    ensures AllStorable(bans[b.addr := b.name])
  {
  }

  datatype Op = BanOp(addr: string, name: string) | UnbanOp(id: string) | ImportOp(list: seq<BanEntry>)

  predicate OpStorable(op: Op) {
    match op
    case BanOp(addr, name) => Storable(addr, name)
    case UnbanOp(_) => true
    case ImportOp(list) => forall b :: b in list ==> Storable(b.addr, b.name)
  }

  /** What the operations mean on the map. */
  ghost function Meaning(op: Op, bans: BanMap): BanMap {
    match op
    case BanOp(addr, name) => bans[addr := name]
    case UnbanOp(id) => Without(bans, id)
    case ImportOp(list) => Imported(bans, list)
  }

  ghost function RunMeaning(ops: seq<Op>, bans: BanMap): BanMap {
    if ops == [] then bans
    else Meaning(ops[|ops| - 1], RunMeaning(ops[..|ops| - 1], bans))
  }

  /** One entry is added to a readable file. */
  ghost predicate Imports(before: string, b: BanEntry, after: string) {
    Read(before).Ok? && Wrote(after, Read(before).value[b.addr := b.name])
  }

  /** What `Banned` is documented to report: whether the address or the name is banned. */
  ghost predicate BannedEither(bans: BanMap, addr: string, name: string) {
    addr in bans || exists a :: a in bans && bans[a] == name
  }

  /** Looking at the address alone agrees with that exactly if it is banned or the name is not. */
  lemma BannedAgreesExactly(bans: BanMap, addr: string, name: string)
    ensures (addr in bans <==> BannedEither(bans, addr, name)) <==>
            addr in bans || forall a :: a in bans ==> bans[a] != name
  {
  }

  /** A banned player comes back from another address. */
  lemma BannedElsewhere(addr: string, other: string, name: string)
    requires addr != other
    ensures var bans := map[addr := name]; BannedEither(bans, other, name) && other !in bans
  {
    assert addr in map[addr := name];
  }

  /** The entries without carriage returns at their ends. */
  ghost function AllStripped(bans: BanMap): BanMap {
    map a | a in bans :: DropCR(bans[a])
  }

  ghost predicate AllPlainFit(bans: BanMap) {
    forall a :: a in bans ==> Plain(a, bans[a]) && Fits(a, bans[a])
  }

  /** A file of plain entries that fit is read back without carriage returns at line ends. */
  lemma WroteReads(text: string, bans: BanMap)
    requires Wrote(text, bans) && AllPlainFit(bans)
    ensures Read(text) == Ok(AllStripped(bans)) && AllPlainFit(AllStripped(bans))
  {
    var order :| IsOrder(order, bans) && text == Render(order, bans);
    ReadRendered(order, bans, map[]);
    assert map[] + Stripped(order, bans) == AllStripped(bans);
    forall a | a in bans ensures Plain(a, DropCR(bans[a])) && Fits(a, DropCR(bans[a])) {
      StrippedPlain(a, bans[a]);
    }
  }

  /** What importing has brought into the file: no name is longer than without its last carriage return. */
  ghost predicate Arrived(bans: BanMap, list: seq<BanEntry>) {
    && AllPlainFit(bans)
    && (forall b :: b in list ==> b.addr in bans && |bans[b.addr]| <= |DropCR(b.name)|)
  }

  lemma ArrivedSnoc(bans: BanMap, list: seq<BanEntry>, b: BanEntry)
    requires Arrived(bans, list) && Plain(b.addr, b.name) && Fits(b.addr, b.name)
    requires forall c :: c in list ==> c.addr != b.addr
    ensures AllPlainFit(bans[b.addr := b.name])
    ensures Arrived(AllStripped(bans[b.addr := b.name]), list + [b])
  {
    hide Plain, Fits, DropCR;
    var more := bans[b.addr := b.name];
    forall a | a in more
      ensures Plain(a, DropCR(more[a])) && Fits(a, DropCR(more[a])) && |DropCR(more[a])| <= |more[a]|
    {
      StrippedPlain(a, more[a]);
    }
    forall c | c in list + [b]
      ensures c.addr in more && |DropCR(more[c.addr])| <= |DropCR(c.name)|
    {
      assert c in list || c == b;
    }
  }

  lemma StrippedPlain(addr: string, name: string)
    requires Plain(addr, name) && Fits(addr, name)
    ensures Plain(addr, DropCR(name)) && Fits(addr, DropCR(name)) && |DropCR(name)| <= |name|
  {
  }

  class BanFile {
    var text: string

    method ReadBans() returns (bans: Outcome<BanMap, ScanError>)
      ensures bans == Read(text)
    {
      var rest := text;
      var found: BanMap := map[];
      while rest != ""
        invariant ReadFrom(rest, found) == Read(text)
        decreases |rest|
      {
        var n := Before(rest, '\n');
        if n > MAX_LINE {
          return Err(LineTooLong);
        }
        var parts := Split(DropCR(rest[..n]), '|');
        if |parts| < 2 {
          return Panic;
        }
        found := found[parts[0] := parts[1]];
        rest := if n < |rest| then rest[n + 1..] else "";
      }
      bans := Ok(found);
    }

    /** Go's map iteration visits the entries in any order. */
    method WriteBans(bans: BanMap)
      modifies this
      ensures Wrote(text, bans)
      ensures Read(text) == Ok(bans) <==> AllStorable(bans)
    {
      text := "";
      ghost var order: seq<string> := [];
      var left := bans.Keys;
      while left != {}
        invariant left <= bans.Keys
        invariant forall a :: a in order <==> a in bans && a !in left
        invariant forall i, j :: 0 <= i < j < |order| ==> order[i] != order[j]
        invariant text == Render(order, bans)
        decreases left
      {
        var addr :| addr in left;
        RenderSnoc(order, addr, bans);
        text := text + Line(addr, bans[addr]);
        order := order + [addr];
        left := left - {addr};
      }
      RoundTripExactly(order, bans);
    }

    method Ban(addr: string, name: string) returns (r: Outcome<(), ScanError>)
      modifies this
      ensures r.Ok? == Read(old(text)).Ok?
      ensures !r.Ok? ==> text == old(text)
      ensures r.Ok? ==>
        var bans := Read(old(text)).value[addr := name];
        Wrote(text, bans) && (Read(text) == Ok(bans) <==> AllStorable(bans))
    {
      var found := ReadBans();
      match found {
        case Err(e) => r := Err(e);
        case Panic => r := Panic;
        case Ok(bans) =>
          WriteBans(bans[addr := name]);
          r := Ok(());
      }
    }

    /** The second loop over the map first collects the addresses banned under that name. */
    method Unban(id: string) returns (r: Outcome<(), ScanError>)
      modifies this
      ensures r.Ok? == Read(old(text)).Ok?
      ensures !r.Ok? ==> text == old(text)
      ensures r.Ok? ==>
        var bans := Without(Read(old(text)).value, id);
        Wrote(text, bans) && (Read(text) == Ok(bans) <==> AllStorable(bans))
    {
      var found := ReadBans();
      match found {
        case Err(e) => r := Err(e);
        case Panic => r := Panic;
        case Ok(all) =>
          var bans := all - {id};
          var flagged: set<string> := {};
          var left := bans.Keys;
          while left != {}
            invariant left <= bans.Keys
            invariant flagged == set a | a in bans && a !in left && bans[a] == id
            decreases left
          {
            var addr :| addr in left;
            if bans[addr] == id {
              flagged := flagged + {addr};
            }
            left := left - {addr};
          }
          bans := bans - flagged;
          assert bans == Without(all, id);
          WriteBans(bans);
          r := Ok(());
      }
    }

    /** Only the address is looked up; an unreadable file counts as a ban. */
    method Banned(addr: string, name: string) returns (r: Outcome<bool, ScanError>)
      ensures r == match Read(text)
                   case Ok(bans) => Ok(addr in bans)
                   case Err(_) => Ok(true)
                   case Panic => Panic
    {
      var found := ReadBans();
      match found {
        case Err(_) => r := Ok(true);
        case Panic => r := Panic;
        case Ok(bans) => r := Ok(addr in bans);
      }
    }

    /**
     Entry by entry, stopping where the file cannot be read; `texts` are the contents it goes through.
     Storable entries all arrive.
     */
    method ImportBans(list: seq<BanEntry>) returns (r: Outcome<(), ScanError>, ghost texts: seq<string>)
      modifies this
      ensures 1 <= |texts| <= |list| + 1 && texts[0] == old(text) && texts[|texts| - 1] == text
      ensures forall i :: 0 <= i < |texts| - 1 ==> Imports(texts[i], list[i], texts[i + 1])
      ensures r.Ok? ==> |texts| == |list| + 1
      ensures !r.Ok? ==> |texts| <= |list| && !Read(text).Ok?
      ensures Read(old(text)).Ok? && AllStorable(Read(old(text)).value)
        && (forall b :: b in list ==> Storable(b.addr, b.name))
        ==> r.Ok? && Read(text) == Ok(Imported(Read(old(text)).value, list))
    {
      ghost var good := Read(text).Ok? && AllStorable(Read(text).value)
        && forall b :: b in list ==> Storable(b.addr, b.name);
      ghost var goal := if good then Imported(Read(text).value, list) else map[];
      texts := [text];
      for i := 0 to |list|
        invariant |texts| == i + 1 && texts[0] == old(text) && texts[i] == text
        invariant forall j :: 0 <= j < i ==> Imports(texts[j], list[j], texts[j + 1])
        invariant good ==> Read(text).Ok? && AllStorable(Read(text).value)
        invariant good ==> Imported(Read(text).value, list[i..]) == goal
      {
        hide Read, Wrote, Imported, AllStorable, Storable;
        assert list[i..][1..] == list[i + 1..];
        if good {
          assert list[i] in list;
          ImportedDef(Read(text).value, list[i..]);
          OneMoreStorable(Read(text).value, list[i]);
        }
        r := Ban(list[i].addr, list[i].name);
        if !r.Ok? {
          return;
        }
        texts := texts + [text];
      }
      r := Ok(());
    }

    method ExportBans() returns (r: Outcome<seq<BanEntry>, ScanError>)
      ensures r.Ok? == Read(text).Ok?
      ensures r.Ok? ==> IsExport(r.value, Read(text).value)
    {
      var found := ReadBans();
      match found {
        case Err(e) => r := Err(e);
        case Panic => r := Panic;
        case Ok(bans) =>
          var list: seq<BanEntry> := [];
          var left := bans.Keys;
          while left != {}
            invariant left <= bans.Keys
            invariant forall i, j :: 0 <= i < j < |list| ==> list[i].addr != list[j].addr
            invariant forall b :: b in list ==> b.addr in bans && b.addr !in left && bans[b.addr] == b.name
            invariant forall a :: a in bans && a !in left ==> BanEntry(a, bans[a]) in list
            decreases left
          {
            var addr :| addr in left;
            list := list + [BanEntry(addr, bans[addr])];
            left := left - {addr};
          }
          r := Ok(list);
      }
    }

    /** Any run of operations on storable entries refines the same run on the abstract map. */
    method Run(ops: seq<Op>)
      requires Read(text).Ok? && AllStorable(Read(text).value)
      requires forall op :: op in ops ==> OpStorable(op)
      modifies this
      ensures Read(text) == Ok(RunMeaning(ops, Read(old(text)).value))
    {
      ghost var start := Read(text).value;
      for i := 0 to |ops|
        invariant Read(text) == Ok(RunMeaning(ops[..i], start))
        invariant AllStorable(RunMeaning(ops[..i], start))
      {
        assert ops[..i + 1][..i] == ops[..i];
        assert ops[i] in ops;
        var r: Outcome<(), ScanError>;
        match ops[i] {
          case BanOp(addr, name) => r := Ban(addr, name);
          case UnbanOp(id) => r := Unban(id);
          case ImportOp(list) =>
            ImportedStorable(RunMeaning(ops[..i], start), list);
            ghost var texts;
            r, texts := ImportBans(list);
        }
      }
      assert ops[..|ops|] == ops;
    }
  }

  /** Entries that the format can hold, but for carriage returns at the ends of names. */
  predicate Readable(b: BanEntry) {
    Plain(b.addr, b.name) && Fits(b.addr, b.name)
  }

  /** Importing such entries one by one leaves no name longer than without its last carriage return. */
  lemma {:induction false} ImportsArrive(texts: seq<string>, list: seq<BanEntry>)
    requires |texts| == |list| + 1 && texts[0] == ""
    requires forall i :: 0 <= i < |list| ==> Imports(texts[i], list[i], texts[i + 1])
    requires forall b :: b in list ==> Readable(b)
    requires forall i, j :: 0 <= i < j < |list| ==> list[i].addr != list[j].addr
    ensures Read(texts[|list|]).Ok? && Arrived(Read(texts[|list|]).value, list)
  {
    hide Plain, Fits, DropCR, Split, Wrote;
    if list == [] {
    } else {
      var n := |list| - 1;
      var init, b := list[..n], list[n];
      assert list == init + [b] && b in list && forall c :: c in init ==> c in list;
      ImportsArrive(texts[..|list|], init);
      hide Read;
      var before := Read(texts[n]).value;
      assert Imports(texts[n], b, texts[n + 1]);
      ArrivedSnoc(before, init, b);
      WroteReads(texts[n + 1], before[b.addr := b.name]);
    }
  }

  /** What a file is read as has no entry that is too long. */
  lemma {:induction false} ReadFits(text: string, acc: BanMap)
    requires AllPlainFit(acc)
    ensures ReadFrom(text, acc).Ok? ==> AllPlainFit(ReadFrom(text, acc).value)
    decreases |text|
  {
    if text == "" {
    } else {
      hide Split, DropCR, Plain, Fits, ReadFrom, AllPlainFit;
      ReadFromDef(text, acc);
      var n := Before(text, '\n');
      var parts := Split(DropCR(text[..n]), '|');
      if n <= MAX_LINE && |parts| >= 2 {
        LineFits(text[..n]);
        OneMoreFits(acc, parts[0], parts[1]);
        ReadFits(if n < |text| then text[n + 1..] else "", acc[parts[0] := parts[1]]);
      }
    }
  }

  lemma OneMoreFits(bans: BanMap, addr: string, name: string)
    requires AllPlainFit(bans) && Plain(addr, name) && Fits(addr, name)
    ensures AllPlainFit(bans[addr := name])
  {
  }

  lemma ReadFromDef(text: string, acc: BanMap)
    requires text != ""
    ensures var n := Before(text, '\n');
      var parts := Split(DropCR(text[..n]), '|');
      if n <= MAX_LINE && |parts| >= 2 then
        ReadFrom(text, acc) == ReadFrom(if n < |text| then text[n + 1..] else "", acc[parts[0] := parts[1]])
      else !ReadFrom(text, acc).Ok?
  {
    hide Split, DropCR, Before;
  }

  lemma LineFits(text: string)
    requires Free(text, '\n') && |text| <= MAX_LINE && |Split(DropCR(text), '|')| >= 2
    ensures var parts := Split(DropCR(text), '|'); Plain(parts[0], parts[1]) && Fits(parts[0], parts[1])
  {
    var line := DropCR(text);
    FreeOfBreak(text);
    SplitPartsFree(line, '|', '\n');
    SplitLength(line, '|');
    hide Split, DropCR;
    assert Split(line, '|')[0] in Split(line, '|') && Split(line, '|')[1] in Split(line, '|');
  }

  /** The first two parts and the separator between them are no longer than the string. */
  lemma SplitLength(s: string, c: char)
    ensures var parts := Split(s, c); |parts| >= 2 ==> |parts[0]| + 1 + |parts[1]| <= |s|
  {
    var n := Before(s, c);
    if n < |s| {
      assert Split(s, c) == [s[..n]] + Split(s[n + 1..], c);
    }
  }

  /**
   Exporting one file and importing it into an empty one leads to the same entries exactly if no name
   ends with a carriage return: a name can be read with one, from in front of a further separator, but
   is not written back with it.
   */
  method Transfer(from: BanFile, to: BanFile) returns (r: Outcome<(), ScanError>)
    requires from != to && to.text == ""
    modifies to
    ensures r.Ok? <==> Read(from.text).Ok?
    ensures r.Ok? ==> (Read(to.text) == Read(from.text) <==> AllStorable(Read(from.text).value))
  {
    var exported := from.ExportBans();
    match exported {
      case Err(e) => r := Err(e);
      case Panic => r := Panic;
      case Ok(list) =>
        ReadFits(from.text, map[]);
        ghost var bans := Read(from.text).value;
        ImportExport(list, bans);
        assert Read("") == Ok(map[]);
        ghost var texts;
        r, texts := to.ImportBans(list);
        TransferExactly(bans, list, texts, r.Ok?);
    }
  }

  lemma TransferExactly(bans: BanMap, list: seq<BanEntry>, texts: seq<string>, ok: bool)
    requires IsExport(list, bans) && AllPlainFit(bans)
    requires 1 <= |texts| <= |list| + 1 && texts[0] == ""
    requires forall i :: 0 <= i < |texts| - 1 ==> Imports(texts[i], list[i], texts[i + 1])
    requires if ok then |texts| == |list| + 1 else !Read(texts[|texts| - 1]).Ok?
    requires AllStorable(bans) ==> Read(texts[|texts| - 1]) == Ok(bans)
    ensures ok && (Read(texts[|texts| - 1]) == Ok(bans) <==> AllStorable(bans))
  {
    hide Read, Imports, Plain, Fits;
    var n := |texts| - 1;
    assert forall b :: b in list ==> Readable(b);
    ImportsArrive(texts, list[..n]);
    assert ok;
    assert list[..n] == list;
    if !AllStorable(bans) {
      var a :| a in bans && DropCR(bans[a]) != bans[a];
      assert BanEntry(a, bans[a]) in list;
      assert |DropCR(bans[a])| < |bans[a]|;
    }
  }

  lemma {:induction false} RenderSnoc(order: seq<string>, addr: string, bans: BanMap)
    requires addr in bans && forall a :: a in order ==> a in bans
    ensures Render(order + [addr], bans) == Render(order, bans) + Line(addr, bans[addr])
  {
    if order == [] {
      assert order + [addr] == [addr];
    } else {
      RenderSnoc(order[1..], addr, bans);
      assert (order + [addr])[1..] == order[1..] + [addr];
    }
  }
}
