/** Extraction of the games on a dumped cartridge, and what it gives back of an assembled one. */
module GbMemoryExtract {
  import opened Bytes
  import opened GbMemoryImage

  /** A recovered game; its title is left out. */
  datatype ExtractedGame = ExtractedGame(isCgb: bool, data: seq<byte>, saveOffset: nat, saveSize: nat)

  /** The game a map entry points at, unless the entry is blank, out of range or the menu. */
  function EntryGame(image: seq<byte>, e: seq<byte>): Option<ExtractedGame>
    requires |e| == 3
  {
    if e == [0xFF, 0xFF, 0xFF] || e == [0x00, 0x00, 0x00] then None
    else
      var d := DecodeEntry(e);
      var size, off := RomBytes(d.romCode), d.romOff * 0x8000;
      if off + size > |image| then None
      else
        var slice := image[off..off + size];
        if IsMenuRom(slice) then None
        else
          Some(ExtractedGame(slice[0x143] >= 0x80, slice, d.ramOff * 0x800, RamKibFromMapCode(d.ramCode) * 1024))
  }

  function Extracted(image: seq<byte>, sector: seq<byte>, k: nat): seq<ExtractedGame>
    requires |sector| == MAP_SIZE && k <= 8
  {
    if k == 0 then []
    else
      var rest := Extracted(image, sector, k - 1);
      var g := EntryGame(image, sector[3 * (k - 1)..3 * (k - 1) + 3]);
      if g.Some? then rest + [g.value] else rest
  }

  /** Decode one entry and cut its game out of the dump. */
  method ReadEntry(image: seq<byte>, e: seq<byte>) returns (g: Option<ExtractedGame>)
    requires |e| == 3
    ensures g == EntryGame(image, e)
  {
    hide RomBytes, IsMenuRom, RamKibFromMapCode;
    if e == [0xFF, 0xFF, 0xFF] || e == [0x00, 0x00, 0x00] {
      return None;
    }
    var romCode := e[0] as nat / 4 % 8;
    var size := RomBytes(romCode);
    var off := e[1] as nat % 64 * 0x8000;
    if off + size > |image| {
      return None;
    }
    var slice := image[off..off + size];
    if IsMenuRom(slice) {
      return None;
    }
    var isCgb := slice[0x143] >= 0x80;
    var ramCode := e[0] as nat % 4 * 2 + e[1] as nat / 128 % 2;
    var saveSize := RamKibFromMapCode(ramCode) * 1024;
    var saveOffset := e[2] as nat % 64 * 0x800;
    g := Some(ExtractedGame(isCgb, slice, saveOffset, saveSize));
  }

  /** The playable games of a dump, in map order. */
  method ExtractGames(image: seq<byte>, sector: seq<byte>) returns (games: seq<ExtractedGame>)
    requires |sector| == MAP_SIZE
    ensures games == Extracted(image, sector, 8)
  {
    hide EntryGame;
    games := [];
    for k := 0 to 8
      invariant games == Extracted(image, sector, k)
    {
      var g := ReadEntry(image, sector[k * 3..k * 3 + 3]);
      if g.Some? {
        games := games + [g.value];
      }
    }
  }

  // --- The inverse of assembly ----------------------------------------------------------

  /** KiB of save RAM reserved by the first `k` games. */
  function Reserved(games: seq<seq<byte>>, k: nat): nat
    requires k <= |games| && AllPlaceable(games)
  {
    if k == 0 then 0 else Reserved(games, k - 1) + Reserves(RamKib(games[k - 1]))
  }

  /** The `k`th game as it should come back: its save offset wraps at the 128 KiB of the cartridge. */
  function Returned(games: seq<seq<byte>>, k: nat): ExtractedGame
    requires k < |games| && AllPlaceable(games)
  {
    var data := Fit(games[k]);
    ExtractedGame(games[k][0x143] >= 0x80, data, Reserved(games, k) * 1024 % 0x2_0000, RamKib(games[k]) * 1024)
  }

  /** What extraction should give back of the first `k` games: all that are not themselves menus. */
  function AllReturned(games: seq<seq<byte>>, k: nat): seq<ExtractedGame>
    requires k <= |games| && AllPlaceable(games)
  {
    if k == 0 then []
    else if IsMenuRom(games[k - 1]) then AllReturned(games, k - 1)
    else AllReturned(games, k - 1) + [Returned(games, k - 1)]
  }

  lemma {:induction false} ReservedIs(games: seq<seq<byte>>, n: nat, k: nat)
    requires k <= n <= |games| && AllPlaceable(games)
    ensures RamOffset(Layouts(games, n), k) == Reserved(games, k) && Reserved(games, k) % 2 == 0
  {
    hide RamKib, LayoutOf, BlockOf;
    if k > 0 {
      ReservedIs(games, n, k - 1);
      LayoutRam(games, k - 1);
      assert Layouts(games, n)[k - 1] == LayoutOf(games, k - 1);
    }
  }

  lemma LayoutRam(games: seq<seq<byte>>, k: nat)
    requires k < |games| && AllPlaceable(games)
    ensures LayoutOf(games, k).ramKib == RamKib(games[k]) && Reserves(RamKib(games[k])) % 2 == 0
  {
    hide BlockOf;
  }

  lemma RamCodes(kib: nat)
    requires kib in {0, 2, 8, 32, 64, 128}
    ensures MapRamCode(kib) <= 5 && RamKibFromMapCode(MapRamCode(kib)) == kib
  {
  }

  lemma NaturalFits(game: seq<byte>)
    requires Placeable(game)
    ensures 0x8000 <= NaturalSize(game) <= Blocks(game) * BLOCK
  {
    CodeSizes(RomCode(game));
  }

  /** A menu is told by its header, which cutting or filling keeps. */
  lemma HeaderKept(game: seq<byte>)
    requires Placeable(game)
    ensures |Fit(game)| >= 0x150 && Fit(game)[..0x150] == game[..0x150]
    ensures IsMenuRom(Fit(game)) <==> IsMenuRom(game)
  {
    NaturalFits(game);
    var f := Fit(game);
    assert forall j :: 0 <= j < 0x150 ==> f[j] == game[j];
    assert f[0x134..0x13D] == game[0x134..0x13D];
  }

  /** What the entry of game `k` decodes to. */
  lemma EntryDecodes(games: seq<seq<byte>>, k: nat)
    requires k < |games| <= MAX_GAMES && AllPlaceable(games) && BlockOf(games, |games|) <= 8
    ensures var e := EntryOf(Layouts(games, |games|), k);
            && e != [0xFF, 0xFF, 0xFF] && e != [0x00, 0x00, 0x00]
            && DecodeEntry(e) == Decoded(MapMbcCode(games[k][0x147]), RomCode(games[k]), MapRamCode(RamKib(games[k])),
                                         BlockOf(games, k) * 4, Reserved(games, k) / 2 % 64)
  {
    hide DecodeEntry, MapEntry, BlockOf, Reserved, RamOffset, RamKib, MapMbcCode, MapRamCode;
    var l := Layouts(games, |games|);
    BlocksRise(games, k, |games|);
    ReservedIs(games, |games|, k);
    RamCodes(RamKib(games[k]));
    EntryIs(l, k);
    assert l[k] == LayoutOf(games, k);
    var romOff, ramOff := BlockOf(games, k) * 4 % 256, Reserved(games, k) / 2 % 256;
    assert romOff == BlockOf(games, k) * 4 && 0 < romOff < 32;
    EntryRoundTrip(l[k].mbc, l[k].romCode, l[k].ramCode, romOff, ramOff);
    EntryNotBlank(l[k].mbc, l[k].romCode, l[k].ramCode, romOff, ramOff);
    LowSixBits(Reserved(games, k) / 2);
  }

  lemma LowSixBits(n: nat)
    ensures n % 256 % 64 == n % 64
  {
  }

  lemma EntryNotBlank(mbc: nat, romCode: nat, ramCode: nat, romOff: nat, ramOff: nat)
    requires 0 < romOff < 32
    ensures var e := MapEntry(mbc, romCode, ramCode, romOff, ramOff);
            e[1] != 0xFF && e[1] != 0x00
  {
  }

  lemma SliceIsFit(rom: seq<byte>, games: seq<seq<byte>>, k: nat)
    requires k < |games| && AllPlaceable(games) && |rom| == IMAGE_SIZE && Holding(rom, games, k)
    ensures var off := BlockOf(games, k) * BLOCK;
            off + NaturalSize(games[k]) <= IMAGE_SIZE && rom[off..off + NaturalSize(games[k])] == Fit(games[k])
  {
    hide BlockOf, Blocks;
    NaturalFits(games[k]);
    var off := BlockOf(games, k) * BLOCK;
    forall j | 0 <= j < NaturalSize(games[k])
      ensures rom[off + j] == CellOf(games[k], j)
    {
    }
  }

  lemma Remainder(a: nat, r: nat)
    requires r < 0x2_0000
    ensures (a * 0x2_0000 + r) % 0x2_0000 == r
  {
  }

  /** Offsets are stored in 2 KiB units of which six bits survive. */
  lemma OffsetWraps(kib: nat)
    requires kib % 2 == 0
    ensures kib / 2 % 64 * 0x800 == kib * 1024 % 0x2_0000
  {
    var a, b := kib / 2 / 64, kib / 2 % 64;
    assert kib * 1024 == a * 0x2_0000 + b * 0x800;
    Remainder(a, b * 0x800);
  }

  lemma EntryReturns(rom: seq<byte>, games: seq<seq<byte>>, k: nat)
    requires k < |games| <= MAX_GAMES && AllPlaceable(games) && BlockOf(games, |games|) <= 8
    requires |rom| == IMAGE_SIZE && Holding(rom, games, k)
    ensures EntryGame(rom, EntryOf(Layouts(games, |games|), k))
         == if IsMenuRom(games[k]) then None else Some(Returned(games, k))
  {
    hide DecodeEntry, EntryOf, BlockOf, Blocks, IsMenuRom, RamKib, Holding, Fit;
    EntryDecodes(games, k);
    SliceIsFit(rom, games, k);
    HeaderKept(games[k]);
    assert Fit(games[k])[0x143] == Fit(games[k])[..0x150][0x143];
    RamCodes(RamKib(games[k]));
    ReservedIs(games, |games|, k);
    OffsetWraps(Reserved(games, k));
    assert BlockOf(games, k) * 4 * 0x8000 == BlockOf(games, k) * BLOCK;
  }

  lemma MenuEntrySkipped(rom: seq<byte>, menu: seq<byte>)
    requires |rom| == IMAGE_SIZE && |menu| >= MENU_SIZE && IsMenuRom(menu)
    requires rom[..0x150] == menu[..0x150]
    ensures EntryGame(rom, MENU_MAP_ENTRY).None?
  {
    CodeSizes(2);
    var d := DecodeEntry(MENU_MAP_ENTRY);
    assert d.romCode == 2 && d.romOff == 0;
    var slice := rom[0..MENU_SIZE];
    assert slice[0x134..0x13D] == rom[..0x150][0x134..0x13D] && slice[0x147] == rom[..0x150][0x147];
    assert menu[0x134..0x13D] == menu[..0x150][0x134..0x13D];
    assert IsMenuRom(slice);
  }

  lemma {:induction false} ExtractedPrefix(rom: seq<byte>, sector: seq<byte>, games: seq<seq<byte>>, k: nat)
    requires k <= |games| <= MAX_GAMES && AllPlaceable(games) && BlockOf(games, |games|) <= 8
    requires |rom| == IMAGE_SIZE && |sector| == MAP_SIZE
    requires EntryGame(rom, sector[..3]).None?
    requires forall i :: 0 <= i < |games| ==>
      Holding(rom, games, i) && sector[3 * (i + 1)..3 * (i + 1) + 3] == EntryOf(Layouts(games, |games|), i)
    ensures Extracted(rom, sector, k + 1) == AllReturned(games, k)
  {
    hide EntryGame, EntryOf, Returned, Holding, IsMenuRom;
    if k > 0 {
      ExtractedPrefix(rom, sector, games, k - 1);
      EntryReturns(rom, games, k - 1);
      assert sector[3 * k..3 * k + 3] == EntryOf(Layouts(games, |games|), k - 1);
    } else {
      assert sector[3 * 0..3 * 0 + 3] == sector[..3];
      assert Extracted(rom, sector, 0) == [];
    }
  }

  lemma {:induction false} BlankEntriesSkipped(rom: seq<byte>, sector: seq<byte>, from: nat, k: nat)
    requires |sector| == MAP_SIZE && from <= k <= 8
    requires forall i :: from <= i < k ==> sector[3 * i..3 * i + 3] == [FILL, FILL, FILL]
    ensures Extracted(rom, sector, k) == Extracted(rom, sector, from)
  {
    if k > from {
      BlankEntriesSkipped(rom, sector, from, k - 1);
      assert sector[3 * (k - 1)..3 * (k - 1) + 3] == [FILL, FILL, FILL];
    }
  }

  /** Extraction undoes assembly: every game that is not a menu comes back, in order. */
  lemma ExtractAssembled(menu: seq<byte>, games: seq<seq<byte>>, texts: seq<Label>, stamp: Stamp,
                         carried: Option<seq<byte>>)
    requires Stamped(games, texts, stamp, carried) && AssembleError(menu, games).None?
    ensures AllPlaceable(games)
    ensures var image := Assembled(menu, games, texts, stamp, carried);
            && |image.rom| == IMAGE_SIZE && |image.sector| == MAP_SIZE
            && Extracted(image.rom, image.sector, 8) == AllReturned(games, |games|)
  {
    hide WithGames, BuiltMap, IsMenuRom, Extracted, AllReturned, EntryGame, EntryOf, Holding;
    Accepted(menu, games);
    var image := Assembled(menu, games, texts, stamp, carried);
    GamePlaced(menu, games, texts, stamp, |games|);
    MapSector(MENU_MAP_ENTRY, Layouts(games, |games|), carried);
    forall j | 0 <= j < 0x150
      ensures image.rom[j] == menu[j]
    {
      MenuKept(menu, games, texts, stamp, |games|, j);
    }
    assert image.rom[..0x150] == menu[..0x150];
    MenuEntrySkipped(image.rom, menu);
    ExtractedPrefix(image.rom, image.sector, games, |games|);
    BlankEntriesSkipped(image.rom, image.sector, |games| + 1, 8);
  }

  /** No menu among the games, each as long as its header says. */
  predicate Natural(games: seq<seq<byte>>)
    requires AllPlaceable(games)
  {
    forall i :: 0 <= i < |games| ==> |games[i]| == NaturalSize(games[i]) && !IsMenuRom(games[i])
  }

  function Datas(games: seq<ExtractedGame>): (d: seq<seq<byte>>)
    ensures |d| == |games|
  {
    seq(|games|, i requires 0 <= i < |games| => games[i].data)
  }

  lemma {:induction false} NaturalReturned(games: seq<seq<byte>>, k: nat)
    requires AllPlaceable(games) && Natural(games) && k <= |games|
    ensures |AllReturned(games, k)| == k
    ensures forall i :: 0 <= i < k ==> AllReturned(games, k)[i] == Returned(games, i)
    ensures Datas(AllReturned(games, k)) == games[..k]
  {
    hide Natural, AllPlaceable, Returned, Datas, AllReturned;
    if k > 0 {
      NaturalReturned(games, k - 1);
      NaturalStep(games, k - 1);
      DatasOn(AllReturned(games, k - 1), Returned(games, k - 1));
      assert games[..k - 1] + [games[k - 1]] == games[..k];
    } else {
      NoneReturned(games);
    }
  }

  lemma NoneReturned(games: seq<seq<byte>>)
    requires AllPlaceable(games)
    ensures AllReturned(games, 0) == [] && Datas([]) == []
  {
  }

  lemma NaturalStep(games: seq<seq<byte>>, k: nat)
    requires AllPlaceable(games) && Natural(games) && k < |games|
    ensures AllReturned(games, k + 1) == AllReturned(games, k) + [Returned(games, k)]
    ensures Returned(games, k).data == games[k]
  {
    hide Fit, IsMenuRom, RamKib, Reserved, NaturalSize;
    FitNatural(games[k]);
  }

  lemma DatasOn(games: seq<ExtractedGame>, g: ExtractedGame)
    ensures Datas(games + [g]) == Datas(games) + [g.data]
  {
  }

  /** Games of natural size come back byte for byte, in order. */
  lemma AssembleExtract(menu: seq<byte>, games: seq<seq<byte>>, texts: seq<Label>, stamp: Stamp,
                        carried: Option<seq<byte>>)
    requires Stamped(games, texts, stamp, carried) && AssembleError(menu, games).None?
    requires AllPlaceable(games) && Natural(games)
    ensures var image := Assembled(menu, games, texts, stamp, carried);
            |image.sector| == MAP_SIZE && Datas(Extracted(image.rom, image.sector, 8)) == games
  {
    hide Extracted, AllReturned, Natural, Assembled;
    ExtractAssembled(menu, games, texts, stamp, carried);
    NaturalReturned(games, |games|);
    assert games[..|games|] == games;
  }

  // --- A single game without the menu ---------------------------------------------------

  function FullModeEntry(game: seq<byte>): (e: seq<byte>)
    requires Placeable(game)
    ensures |e| == 3
  {
    MapEntry(MapMbcCode(game[0x147]), RomCode(game), MapRamCode(RamKib(game)), 0, 0)
  }

  /** The full-mode cartridge: the game at offset 0, the stamp in the map. */
  function FullMode(game: seq<byte>, carried: Option<seq<byte>>, stamp: Stamp): (r: Image)
    requires Placeable(game) && stamp.Valid() && (carried.Some? ==> |carried.value| == MAP_SIZE)
    ensures |r.rom| == IMAGE_SIZE && |r.sector| == MAP_SIZE
  {
    var built := BuiltMap(FullModeEntry(game), [], carried);
    Image(Spliced(Filled(IMAGE_SIZE, FILL), 0, game[..Smaller(|game|, IMAGE_SIZE)]),
          Spliced(Spliced(built, 0x54, stamp.timestamp), 0x66, stamp.writer))
  }

  method AssembleFullMode(game: seq<byte>, carried: Option<seq<byte>>, stamp: Stamp)
    returns (r: Result<Image, GbMemoryError>)
    requires stamp.Valid() && (carried.Some? ==> |carried.value| == MAP_SIZE)
    ensures r == if LayoutGame(0, game).Err? then Err(LayoutGame(0, game).error) else Ok(FullMode(game, carried, stamp))
  {
    var l := LayoutGame(0, game);
    if l.Err? {
      return Err(l.error);
    }
    var (mbc, romCode, ramKib, _) := l.value;
    var rom := Spliced(Filled(IMAGE_SIZE, FILL), 0, game[..Smaller(|game|, IMAGE_SIZE)]);
    var entry0 := MapEntry(mbc, romCode, MapRamCode(ramKib), 0, 0);
    var sector := BuildMap(entry0, [], carried);
    sector := Spliced(sector, 0x54, stamp.timestamp);
    sector := Spliced(sector, 0x66, stamp.writer);
    r := Ok(Image(rom, sector));
  }

  /** The header of a game whose full-mode entry is all zero: no mapper, 32 KiB, no RAM. */
  predicate EntryAllZero(game: seq<byte>)
    requires Placeable(game)
  {
    game[0x147] in {0x00, 0x08, 0x09} && game[0x148] == 0 && game[0x149] !in {0x01, 0x02, 0x03, 0x04, 0x05}
  }

  lemma FullModeEntryZero(game: seq<byte>)
    requires Placeable(game)
    ensures FullModeEntry(game) == [0x00, 0x00, 0x00] <==> EntryAllZero(game)
    ensures FullModeEntry(game) != [0xFF, 0xFF, 0xFF]
    ensures DecodeEntry(FullModeEntry(game))
         == Decoded(MapMbcCode(game[0x147]), RomCode(game), MapRamCode(RamKib(game)), 0, 0)
  {
    hide MapEntry, DecodeEntry;
    RamCodes(RamKib(game));
    EntryRoundTrip(MapMbcCode(game[0x147]), RomCode(game), MapRamCode(RamKib(game)), 0, 0);
    EntryZero(MapMbcCode(game[0x147]), RomCode(game), MapRamCode(RamKib(game)));
  }

  lemma EntryZero(mbc: nat, romCode: nat, ramCode: nat)
    requires mbc < 8 && romCode < 8 && ramCode < 8
    ensures MapEntry(mbc, romCode, ramCode, 0, 0) == [0x00, 0x00, 0x00] <==> mbc == 0 && romCode == 0 && ramCode == 0
    ensures MapEntry(mbc, romCode, ramCode, 0, 0)[2] == 0
  {
    EntryRoundTrip(mbc, romCode, ramCode, 0, 0);
    BlankDecodes();
    LastByte(mbc, romCode, ramCode);
    hide MapEntry, DecodeEntry;
    AllZeroEntry(mbc, romCode, ramCode);
  }

  lemma BlankDecodes()
    ensures DecodeEntry([0x00, 0x00, 0x00]) == Decoded(0, 0, 0, 0, 0)
  {
  }

  lemma AllZeroEntry(mbc: nat, romCode: nat, ramCode: nat)
    ensures mbc == 0 && romCode == 0 && ramCode == 0 ==> MapEntry(mbc, romCode, ramCode, 0, 0) == [0x00, 0x00, 0x00]
  {
    assert 0 % 8 == 0 && 0 / 2 == 0 && 0 % 4 == 0 && 0 % 2 == 0 && 0 % 64 == 0;
  }

  lemma LastByte(mbc: nat, romCode: nat, ramCode: nat)
    ensures MapEntry(mbc, romCode, ramCode, 0, 0)[2] == 0
  {
  }

  /** Extraction finds the game of a full-mode cartridge unless its entry is the one taken for an empty slot. */
  lemma FullModeExtract(game: seq<byte>, carried: Option<seq<byte>>, stamp: Stamp)
    requires Placeable(game) && stamp.Valid() && (carried.Some? ==> |carried.value| == MAP_SIZE)
    ensures var image := FullMode(game, carried, stamp);
            Extracted(image.rom, image.sector, 8)
              == if EntryAllZero(game) || IsMenuRom(game) then []
                 else [ExtractedGame(game[0x143] >= 0x80, Fit(game), 0, RamKib(game) * 1024)]
  {
    hide BuiltMap, IsMenuRom, Extracted, MapEntry, EntryAllZero;
    var image := FullMode(game, carried, stamp);
    var built := BuiltMap(FullModeEntry(game), [], carried);
    MapSector(FullModeEntry(game), [], carried);
    FullModeEntryZero(game);
    assert image.sector[..24] == built[..24];
    forall i | 1 <= i < 8
      ensures image.sector[3 * i..3 * i + 3] == [FILL, FILL, FILL]
    {
      assert image.sector[3 * i..3 * i + 3] == built[3 * i..3 * i + 3];
    }
    BlankEntriesSkipped(image.rom, image.sector, 1, 8);
    FirstEntry(image.rom, image.sector);
    assert image.sector[..3] == built[..3];
    FullModeGame(game, image.rom);
  }

  lemma FirstEntry(rom: seq<byte>, sector: seq<byte>)
    requires |sector| == MAP_SIZE
    ensures Extracted(rom, sector, 1)
         == if EntryGame(rom, sector[..3]).Some? then [EntryGame(rom, sector[..3]).value] else []
  {
    hide EntryGame;
    assert Extracted(rom, sector, 0) == [];
    assert sector[3 * 0..3 * 0 + 3] == sector[..3];
  }

  lemma FullModeGame(game: seq<byte>, rom: seq<byte>)
    requires Placeable(game) && rom == Spliced(Filled(IMAGE_SIZE, FILL), 0, game[..Smaller(|game|, IMAGE_SIZE)])
    ensures EntryGame(rom, FullModeEntry(game))
         == if EntryAllZero(game) || IsMenuRom(game) then None
            else Some(ExtractedGame(game[0x143] >= 0x80, Fit(game), 0, RamKib(game) * 1024))
  {
    hide IsMenuRom, EntryAllZero, FullModeEntry, DecodeEntry;
    FullModeEntryZero(game);
    CodeSizes(RomCode(game));
    RamCodes(RamKib(game));
    HeaderKept(game);
    assert rom[0..NaturalSize(game)] == Fit(game);
    assert Fit(game)[0x143] == Fit(game)[..0x150][0x143];
  }
}
