/**
 What assembly writes, byte for byte. The codes, offsets and records of a cartridge are found again
 here from the bytes of its games' headers and from nothing else.
 */
module GbMemoryBytes {
  import Arithmetic
  import opened Bytes
  import opened GbMemoryImage
  import opened GbMemoryExtract

  // --- What the headers say ---------------------------------------------------------------

  /** KiB of save RAM by the header's RAM size byte. */
  const RAM_SIZES: seq<nat> := [0, 2, 8, 32, 128, 64]

  /** The RAM a header names; an MBC2 has its own. */
  function RamOfHeader(mbc: byte, ram: byte): nat {
    if mbc == 0x05 || mbc == 0x06 then 8 else if ram < 6 then RAM_SIZES[ram as nat] else 0
  }

  lemma RamKibIs(game: seq<byte>)
    requires Placeable(game)
    ensures RamKib(game) == RamOfHeader(game[0x147], game[0x149])
  {
  }

  /** The bytes set aside for a game: its size, in whole 128 KiB. */
  function Room(game: seq<byte>): nat
    requires Placeable(game)
  {
    [0x2_0000, 0x2_0000, 0x2_0000, 0x4_0000, 0x8_0000, 0x10_0000][game[0x148] as nat]
  }

  /** Where game `k` starts: the menu's 128 KiB and the rooms of the games before it. */
  function Start(games: seq<seq<byte>>, k: nat): nat
    requires k <= |games| && AllPlaceable(games)
  {
    if k == 0 then 0x2_0000 else Start(games, k - 1) + Room(games[k - 1])
  }

  /** KiB of RAM set aside before game `k`: what each game names, at least 8. */
  function RamBefore(games: seq<seq<byte>>, k: nat): nat
    requires k <= |games| && AllPlaceable(games)
  {
    if k == 0 then 0
    else RamBefore(games, k - 1) + Larger(8, RamOfHeader(games[k - 1][0x147], games[k - 1][0x149]))
  }

  lemma RoomIs(game: seq<byte>)
    requires Placeable(game)
    ensures Blocks(game) * BLOCK == Room(game)
  {
    hide RomBytes, PaddedBlocks;
    CodeSizes(RomCode(game));
  }

  lemma {:induction false} StartIs(games: seq<seq<byte>>, k: nat)
    requires k <= |games| && AllPlaceable(games)
    ensures BlockOf(games, k) * BLOCK == Start(games, k)
  {
    hide Blocks, Room;
    if k > 0 {
      StartIs(games, k - 1);
      RoomIs(games[k - 1]);
    }
  }

  lemma {:induction false} RamBeforeIs(games: seq<seq<byte>>, k: nat)
    requires k <= |games| && AllPlaceable(games)
    ensures Reserved(games, k) == RamBefore(games, k)
  {
    hide RamKib, RamOfHeader;
    if k > 0 {
      RamBeforeIs(games, k - 1);
      RamKibIs(games[k - 1]);
    }
  }

  // --- Map entries ------------------------------------------------------------------------

  /** The mapper codes. */
  predicate NamesMapper(code: nat, mbc: byte) {
    && (code == 0 <==> mbc == 0x00 || mbc == 0x08 || mbc == 0x09)
    && (code == 1 <==> 0x01 <= mbc <= 0x03)
    && (code == 2 <==> mbc == 0x05 || mbc == 0x06)
    && (code == 3 <==> 0x0F <= mbc <= 0x13)
    && (code > 3 ==> code == 5)
  }

  /** The RAM size codes. */
  predicate NamesRam(code: nat, kib: nat) {
    && (code == 0 <==> kib == 0) && (code == 1 <==> kib == 2) && (code == 2 <==> kib == 8)
    && (code == 3 <==> kib == 32) && (code == 4 <==> kib == 64) && (code == 5 <==> kib == 128)
    && code < 6
  }

  /**
   An entry names the game's mapper in its top three bits, the ROM size in the next three, the RAM
   size in the three after those and the offsets in its last two bytes; a RAM offset keeps six bits.
   */
  predicate Names(e: seq<byte>, game: seq<byte>, start: nat, ramBefore: nat)
    requires |e| == 3 && Placeable(game)
  {
    var b0, b1, b2 := e[0] as nat, e[1] as nat, e[2] as nat;
    && NamesMapper(b0 / 32, game[0x147]) && b0 / 4 % 8 == game[0x148] as nat
    && NamesRam(b0 % 4 * 2 + b1 / 128, RamOfHeader(game[0x147], game[0x149]))
    && b1 % 128 * 0x8000 == start && b2 * 2 == ramBefore % 128
  }

  lemma MapperCode(mbc: byte)
    ensures NamesMapper(MapMbcCode(mbc), mbc)
  {
  }

  lemma RamCode(kib: nat)
    requires kib in RAM_SIZES
    ensures NamesRam(MapRamCode(kib), kib)
  {
  }

  lemma EntryBytes(mbc: nat, rom: nat, ram: nat, romOff: nat, ramOff: nat)
    requires mbc < 8 && rom < 8 && ram < 8 && romOff < 32
    ensures var e := MapEntry(mbc, rom, ram, romOff, ramOff);
            var b0, b1, b2 := e[0] as nat, e[1] as nat, e[2] as nat;
            && b0 / 32 == mbc && b0 / 4 % 8 == rom && b0 % 4 * 2 + b1 / 128 == ram
            && b1 % 128 == romOff && b2 == ramOff % 64
  {
    FirstByte(mbc, rom, ram / 2);
    SecondByte(ram % 2, romOff);
    var e := MapEntry(mbc, rom, ram, romOff, ramOff);
    assert e[0] as nat == mbc * 32 + rom * 4 + ram / 2;
    assert e[1] as nat == ram % 2 * 128 + romOff;
  }

  lemma EntryNames(game: seq<byte>, romOff: nat, ramOff: nat, start: nat, ramBefore: nat)
    requires Placeable(game) && romOff < 32 && romOff * 0x8000 == start
    requires ramOff == ramBefore / 2 % 256 && ramBefore % 2 == 0
    ensures Names(MapEntry(MapMbcCode(game[0x147]), RomCode(game), MapRamCode(RamKib(game)), romOff, ramOff),
                  game, start, ramBefore)
  {
    hide MapMbcCode, MapRamCode, NamesMapper, NamesRam, RamKib, MapEntry, RamOfHeader;
    RamKibIs(game);
    RamSizes(game);
    MapperCode(game[0x147]);
    RamCode(RamKib(game));
    EntryBytes(MapMbcCode(game[0x147]), RomCode(game), MapRamCode(RamKib(game)), romOff, ramOff);
    LowUnits(ramBefore);
  }

  lemma RamSizes(game: seq<byte>)
    requires Placeable(game)
    ensures RamKib(game) in RAM_SIZES
  {
    assert RAM_SIZES[0] == 0 && RAM_SIZES[1] == 2 && RAM_SIZES[2] == 8 && RAM_SIZES[3] == 32;
    assert RAM_SIZES[4] == 128 && RAM_SIZES[5] == 64;
  }

  lemma LowUnits(kib: nat)
    requires kib % 2 == 0
    ensures kib / 2 % 256 % 64 * 2 == kib % 128
  {
    LowSixBits(kib / 2);
    var q, r := kib / 2 / 64, kib / 2 % 64;
    assert kib == q * 128 + 2 * r;
    Arithmetic.Remainder(kib, q, 2 * r, 128);
  }

  /** Entry `k` of an assembled sector names game `k`, behind the menu and the games before it. */
  lemma EntriesName(menu: seq<byte>, games: seq<seq<byte>>, texts: seq<Label>, stamp: Stamp,
                    carried: Option<seq<byte>>, k: nat)
    requires Stamped(games, texts, stamp, carried) && AssembleError(menu, games).None? && k < |games|
    ensures AllPlaceable(games) && |games| <= MAX_GAMES
    ensures var sector := Assembled(menu, games, texts, stamp, carried).sector;
            |sector| == MAP_SIZE
            && Names(sector[3 * (k + 1)..3 * (k + 1) + 3], games[k], Start(games, k), RamBefore(games, k))
  {
    hide BuiltMap, EntryOf, WithGames, IsMenuRom, MapEntry, MapMbcCode, MapRamCode, RamKib, Names, Blocks, Reserves,
      BlockOf, Reserved, RamBefore, Start, Placeable, RomCode;
    Accepted(menu, games);
    var l := Layouts(games, |games|);
    MapSector(MENU_MAP_ENTRY, l, carried);
    BlocksRise(games, k, |games|);
    StartIs(games, k);
    ReservedIs(games, |games|, k);
    RamBeforeIs(games, k);
    EntryIs(l, k);
    assert l[k] == LayoutOf(games, k);
    var romOff := BlockOf(games, k) * 4 % 256;
    assert romOff == BlockOf(games, k) * 4 < 32;
    EntryNames(games[k], romOff, Reserved(games, k) / 2 % 256, Start(games, k), RamBefore(games, k));
  }

  /** The rest of a sector: blank entries, write count, cartridge ID, and the zeros the mapper insists on. */
  predicate Closed(sector: seq<byte>, carried: Option<seq<byte>>, n: nat)
    requires |sector| == MAP_SIZE && (carried.Some? ==> |carried.value| == MAP_SIZE) && n <= 8
  {
    && (forall i :: 3 * n <= i < 0x18 ==> sector[i] == 0xFF)
    && sector[0x6E] as nat + 0x100 * sector[0x6F] as nat
       == (match carried
           case None => 0
           case Some(m) => Smaller(m[0x6E] as nat + 0x100 * m[0x6F] as nat + 1, 0xFFFF))
    && (forall i :: 0x70 <= i < 0x78 ==> sector[i] == match carried case None => 0xFF case Some(m) => m[i])
    && (forall i :: 0x78 <= i < 0x7E ==> sector[i] == 0xFF)
    && sector[0x7E] == 0 && sector[0x7F] == 0
  }

  lemma BuiltMapCloses(entry0: seq<byte>, games: seq<GameLayout>, carried: Option<seq<byte>>)
    requires |entry0| == 3 && |games| <= MAX_GAMES && (carried.Some? ==> |carried.value| == MAP_SIZE)
    ensures Closed(BuiltMap(entry0, games, carried), carried, |games| + 1)
    ensures forall i :: 3 * (|games| + 1) <= i < 0x6E ==> BuiltMap(entry0, games, carried)[i] == 0xFF
  {
    hide MapEntries;
    EntriesAre(entry0, games, |games|);
    var m, t := BuiltMap(entry0, games, carried), Trailer(carried);
    assert forall i :: 0x6E <= i < MAP_SIZE ==> m[i] == t[i - 0x6E];
    TrailerBytes(carried);
  }

  lemma TrailerBytes(carried: Option<seq<byte>>)
    requires carried.Some? ==> |carried.value| == MAP_SIZE
    ensures var t := Trailer(carried);
            && t[0] as nat + 0x100 * t[1] as nat
               == (match carried
                   case None => 0
                   case Some(m) => Smaller(m[0x6E] as nat + 0x100 * m[0x6F] as nat + 1, 0xFFFF))
            && (forall i :: 2 <= i < 10 ==> t[i] == match carried case None => 0xFF case Some(m) => m[0x6E + i])
            && (forall i :: 10 <= i < 16 ==> t[i] == 0xFF)
            && t[16] == 0 && t[17] == 0
  {
  }

  /** The menu stands first in the map, and after the last game come blank entries and the closing bytes. */
  lemma SectorCloses(menu: seq<byte>, games: seq<seq<byte>>, texts: seq<Label>, stamp: Stamp,
                     carried: Option<seq<byte>>)
    requires Stamped(games, texts, stamp, carried) && AssembleError(menu, games).None?
    ensures |games| <= MAX_GAMES
    ensures var sector := Assembled(menu, games, texts, stamp, carried).sector;
            |sector| == MAP_SIZE && sector[..3] == [0xA8, 0x00, 0x00] && Closed(sector, carried, |games| + 1)
  {
    hide BuiltMap, WithGames, IsMenuRom, Closed, LayoutOf;
    Accepted(menu, games);
    MapSector(MENU_MAP_ENTRY, Layouts(games, |games|), carried);
    BuiltMapCloses(MENU_MAP_ENTRY, Layouts(games, |games|), carried);
  }

  // --- Flash ------------------------------------------------------------------------------

  /** The flash from a game's start on: the game, as far as its room goes, and 0xFF up to the end of it. */
  lemma GameBytes(menu: seq<byte>, games: seq<seq<byte>>, texts: seq<Label>, stamp: Stamp,
                  carried: Option<seq<byte>>, k: nat, j: nat)
    requires Stamped(games, texts, stamp, carried) && AssembleError(menu, games).None? && k < |games|
    ensures AllPlaceable(games)
    ensures var rom := Assembled(menu, games, texts, stamp, carried).rom;
            && |rom| == 0x10_0000 && Start(games, k) + Room(games[k]) <= 0x10_0000
            && (j < Room(games[k]) ==>
                  rom[Start(games, k) + j] == if j < |games[k]| then games[k][j] else 0xFF)
  {
    hide WithGames, BuiltMap, IsMenuRom, Blocks, Room, Placeable, LayoutOf;
    Accepted(menu, games);
    GamePlaced(menu, games, texts, stamp, |games|);
    assert Holding(Assembled(menu, games, texts, stamp, carried).rom, games, k);
    StartIs(games, k);
    RoomIs(games[k]);
  }

  /** A game's record in the menu's table: its number, start and size in 128 KiB, texts and stamp. */
  predicate Recorded(r: seq<byte>, k: nat, start: nat, room: nat, text: Label, stamp: Stamp)
    requires |r| == 0x200 && text.Valid() && stamp.Valid()
  {
    && r[0] as nat == k + 1 && r[1] as nat * 0x2_0000 == start
    && (r[3] as nat + 0x100 * r[4] as nat) * 0x2_0000 == room
    && r[2] == 0 && r[5] == 0 && r[6] == 0
    && r[0x07..0x13] == text.code && r[0x13..0x3F] == text.title && r[0x3F..0x1BF] == text.graphic
    && r[0x1BF..0x1D1] == stamp.timestamp && r[0x1D1..0x1D9] == stamp.writer
    && forall i :: 0x1D9 <= i < 0x200 ==> r[i] == 0xFF
  }

  lemma RecordSays(k: nat, g: GameLayout, text: Label, stamp: Stamp)
    requires k < MAX_GAMES && g.block < 0x100 && g.blocks < 0x1_0000 && text.Valid() && stamp.Valid()
    ensures Recorded(Record(k, g, text, stamp), k, g.block * 0x2_0000, g.blocks * 0x2_0000, text, stamp)
  {
    var head := [(k + 1) as byte, g.block as byte, 0x00, (g.blocks % 0x100) as byte, (g.blocks / 0x100) as byte,
                 0x00 as byte, 0x00];
    var r := Record(k, g, text, stamp);
    assert r[0x07..0x13] == text.code && r[0x13..0x3F] == text.title;
    assert r[0x3F..0x1BF] == text.graphic && r[0x1BF..0x1D1] == stamp.timestamp;
    assert r[0x1D1..0x1D9] == stamp.writer;
    assert r[..7] == head;
    assert forall i :: 0 <= i < 7 ==> r[i] == r[..7][i];
  }

  lemma RecordsSay(menu: seq<byte>, games: seq<seq<byte>>, texts: seq<Label>, stamp: Stamp,
                   carried: Option<seq<byte>>, k: nat)
    requires Stamped(games, texts, stamp, carried) && AssembleError(menu, games).None? && k < |games|
    ensures AllPlaceable(games) && |games| <= MAX_GAMES
    ensures var rom := Assembled(menu, games, texts, stamp, carried).rom;
            var at := 0x1_C000 + (k + 1) * 0x200;
            && |rom| == 0x10_0000
            && Recorded(rom[at..at + 0x200], k, Start(games, k), Room(games[k]), texts[k], stamp)
  {
    hide WithGames, BuiltMap, IsMenuRom, Record, Recorded, Blocks, Room, Placeable, MapMbcCode, MapRamCode, RamKib;
    Accepted(menu, games);
    BlocksRise(games, k, |games|);
    RecordPlaced(menu, games, texts, stamp, |games|, k);
    RecordSays(k, LayoutOf(games, k), texts[k], stamp);
    StartIs(games, k);
    RoomIs(games[k]);
  }

  // --- What is refused --------------------------------------------------------------------

  const MENU_TITLE: string := "NP M-MENU"

  /** A menu ROM: 128 KiB, the menu's title and mapper byte in its header. */
  predicate IsMenu(menu: seq<byte>) {
    && |menu| >= 0x2_0000 && menu[0x147] == 0x19
    && forall i :: 0 <= i < |MENU_TITLE| ==> menu[0x134 + i] as char == MENU_TITLE[i]
  }

  lemma MenuTitle(menu: seq<byte>)
    requires |menu| >= 0x2_0000
    ensures IsMenuRom(menu) <==> IsMenu(menu)
  {
    var title := menu[0x134..0x13D];
    assert forall i :: 0 <= i < 9 ==> title[i] == menu[0x134 + i];
    TitleIs(title);
  }

  /** A game that cannot be placed: no whole header, or a size byte above that of 1 MiB. */
  predicate Unplaceable(game: seq<byte>) {
    |game| < 0x150 || game[0x148] > 5
  }

  /** The first game that cannot be placed. */
  predicate FirstBad(games: seq<seq<byte>>, k: nat) {
    k < |games| && Unplaceable(games[k]) && forall j :: 0 <= j < k ==> !Unplaceable(games[j])
  }

  lemma {:induction false} FirstErrorAt(games: seq<seq<byte>>, k: nat, n: nat)
    requires FirstBad(games, k) && n <= |games|
    ensures FirstError(games, n)
         == if n <= k then None
            else Some(InvalidGame(k, if |games[k]| < 0x150 then HeaderTooShort else RomTooLarge))
  {
    if n > 0 {
      FirstErrorAt(games, k, n - 1);
    }
  }

  /**
   The error of the first check that fails: number of games, menu, the first game that cannot be
   placed, room in the flash.
   */
  lemma Refusals(menu: seq<byte>, games: seq<seq<byte>>)
    ensures var e := AssembleError(menu, games);
            && (e == Some(NoGames) <==> |games| == 0)
            && (e == Some(TooManyGames(|games|)) <==> |games| > 7)
            && (e == Some(InvalidMenu) <==> 1 <= |games| <= 7 && !IsMenu(menu))
            && (1 <= |games| <= 7 && IsMenu(menu) ==>
                  && (forall k: nat :: FirstBad(games, k) ==>
                        e == Some(InvalidGame(k, if |games[k]| < 0x150 then HeaderTooShort else RomTooLarge)))
                  && (AllPlaceable(games) ==>
                        e == if Start(games, |games|) <= 0x10_0000 then None
                             else Some(ImageTooLarge(Start(games, |games|) - 0x2_0000, 0xE_0000))))
  {
    hide IsMenu, IsMenuRom, LayoutGame, Room;
    if |menu| >= 0x2_0000 {
      MenuTitle(menu);
    } else {
      ShortMenu(menu);
    }
    NoFirstError(games, |games|);
    assert games[..|games|] == games;
    forall k: nat | FirstBad(games, k)
      ensures FirstError(games, |games|)
           == Some(InvalidGame(k, if |games[k]| < 0x150 then HeaderTooShort else RomTooLarge))
    {
      FirstErrorAt(games, k, |games|);
    }
    NeverInvalidMenu(games, |games|);
    if AllPlaceable(games) {
      StartIs(games, |games|);
    }
  }

  lemma ShortMenu(menu: seq<byte>)
    requires |menu| < 0x2_0000
    ensures !IsMenu(menu)
  {
  }

  lemma {:induction false} NeverInvalidMenu(games: seq<seq<byte>>, n: nat)
    requires n <= |games|
    ensures FirstError(games, n).Some? ==> FirstError(games, n).value.InvalidGame?
  {
    if n > 0 {
      NeverInvalidMenu(games, n - 1);
    }
  }

  // --- Full mode --------------------------------------------------------------------------

  /** A cartridge with one game and no menu: its entry first, at offset 0, and the stamp in the map. */
  lemma FullModeBytes(game: seq<byte>, carried: Option<seq<byte>>, stamp: Stamp, j: nat)
    requires Placeable(game) && stamp.Valid() && (carried.Some? ==> |carried.value| == MAP_SIZE)
    ensures var image := FullMode(game, carried, stamp);
            && Names(image.sector[..3], game, 0, 0) && Closed(image.sector, carried, 1)
            && image.sector[0x54..0x66] == stamp.timestamp && image.sector[0x66..0x6E] == stamp.writer
            && (j < 0x10_0000 ==> image.rom[j] == if j < |game| then game[j] else 0xFF)
  {
    hide BuiltMap, MapEntry, Names, Closed, MapMbcCode, MapRamCode, RamKib;
    var entry := FullModeEntry(game);
    var built := BuiltMap(entry, [], carried);
    MapSector(entry, [], carried);
    BuiltMapCloses(entry, [], carried);
    EntryNames(game, 0, 0, 0, 0);
    var image := FullMode(game, carried, stamp);
    assert image.sector[..3] == built[..3] == entry;
    assert image.sector[0x54..0x66] == stamp.timestamp && image.sector[0x66..0x6E] == stamp.writer;
    StampCloses(built, image.sector, carried);
  }

  lemma StampCloses(built: seq<byte>, sector: seq<byte>, carried: Option<seq<byte>>)
    requires |built| == |sector| == MAP_SIZE && (carried.Some? ==> |carried.value| == MAP_SIZE)
    requires Closed(built, carried, 1)
    requires forall i :: 0 <= i < MAP_SIZE && !(0x54 <= i < 0x6E) ==> sector[i] == built[i]
    ensures Closed(sector, carried, 1)
  {
  }

  // --- What an entry is taken for -----------------------------------------------------------

  /** ROM and RAM sizes by their codes. */
  const ROM_SIZES: seq<nat> :=
    [0x8000, 0x1_0000, 0x2_0000, 0x4_0000, 0x8_0000, 0x10_0000, 0x20_0000, 0x40_0000]
  const RAM_BYTES: seq<nat> := [0, 0x800, 0x2000, 0x8000, 0x1_0000, 0x2_0000, 0, 0]

  /** A blank entry, or one whose game would not lie inside the dump, gives no game; nor does the menu. */
  predicate NoGame(image: seq<byte>, e: seq<byte>)
    requires |e| == 3
  {
    var size, off := ROM_SIZES[e[0] as nat / 4 % 8], e[1] as nat % 64 * 0x8000;
    || (e[0] == 0xFF && e[1] == 0xFF && e[2] == 0xFF) || (e[0] == 0 && e[1] == 0 && e[2] == 0)
    || off + size > |image|
    || (image[off + 0x147] == 0x19
        && forall i :: 0 <= i < |MENU_TITLE| ==> image[off + 0x134..off + 0x13D][i] as char == MENU_TITLE[i])
  }

  /** Whatever the map says, an entry's game is cut out of the dump by the entry's own bits. */
  lemma EntryRead(image: seq<byte>, e: seq<byte>)
    requires |e| == 3
    ensures EntryGame(image, e).None? <==> NoGame(image, e)
    ensures EntryGame(image, e).Some? ==>
      var g, size, off := EntryGame(image, e).value, ROM_SIZES[e[0] as nat / 4 % 8], e[1] as nat % 64 * 0x8000;
      && off + size <= |image| && g.data == image[off..off + size]
      && g.saveSize == RAM_BYTES[e[0] as nat % 4 * 2 + if e[1] < 0x80 then 0 else 1]
      && g.saveOffset == e[2] as nat % 64 * 0x800
      && (g.isCgb <==> image[off + 0x143] >= 0x80)
  {
    hide IsMenuRom;
    var code := e[0] as nat / 4 % 8;
    CodeSizes(code);
    TopHalf(e[1]);
    var off := e[1] as nat % 64 * 0x8000;
    if off + ROM_SIZES[code] <= |image| {
      MenuAt(image, off, off + ROM_SIZES[code]);
      assert image[off..off + ROM_SIZES[code]][0x143] == image[off + 0x143];
    }
  }

  lemma TopHalf(b: byte)
    ensures b as nat / 128 % 2 == if b < 0x80 then 0 else 1
  {
  }

  lemma MenuAt(image: seq<byte>, off: nat, end: nat)
    requires off + 0x150 <= end <= |image|
    ensures IsMenuRom(image[off..end])
      <==> image[off + 0x147] == 0x19
           && forall i :: 0 <= i < |MENU_TITLE| ==> image[off + 0x134..off + 0x13D][i] as char == MENU_TITLE[i]
  {
    var slice := image[off..end];
    SubSlice(image, off, end, 0x134, 0x13D);
    var title := slice[0x134..0x13D];
    assert slice[0x147] == image[off + 0x147] && title == image[off + 0x134..off + 0x13D];
    TitleIs(title);
  }

  lemma TitleIs(title: seq<byte>)
    requires |title| == 9
    ensures title == [0x4E, 0x50, 0x20, 0x4D, 0x2D, 0x4D, 0x45, 0x4E, 0x55]
      <==> forall i :: 0 <= i < |MENU_TITLE| ==> title[i] as char == MENU_TITLE[i]
  {
    if forall i :: 0 <= i < |MENU_TITLE| ==> title[i] as char == MENU_TITLE[i] {
      assert title[0] as char == MENU_TITLE[0] && title[1] as char == MENU_TITLE[1];
      assert title[2] as char == MENU_TITLE[2] && title[3] as char == MENU_TITLE[3];
      assert title[4] as char == MENU_TITLE[4] && title[5] as char == MENU_TITLE[5];
      assert title[6] as char == MENU_TITLE[6] && title[7] as char == MENU_TITLE[7];
      assert title[8] as char == MENU_TITLE[8];
    }
  }
}
