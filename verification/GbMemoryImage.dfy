/**
 Putting games on a GB Memory cartridge and getting them back: games packed in 128 KiB blocks behind
 the menu, a record for each in the menu's table, and a map sector of bit-packed entries.
 The texts and pictures of a table record come in as a `Label`.
 */
module GbMemoryImage {
  import opened Bytes

  const IMAGE_SIZE: nat := 0x10_0000
  const MENU_SIZE: nat := 0x2_0000
  const MAP_SIZE: nat := 128
  const MAX_GAMES: nat := 7
  const GAME_BUDGET: nat := IMAGE_SIZE - MENU_SIZE
  const BLOCK: nat := 0x2_0000
  const TABLE_BASE: nat := 0x1_C000
  const TABLE_RECORD: nat := 0x200
  const FILL: byte := 0xFF

  datatype Reason = HeaderTooShort | RomTooLarge

  datatype GbMemoryError =
    | NoGames
    | TooManyGames(count: nat)
    | ImageTooLarge(used: nat, budget: nat)
    | InvalidMenu
    | InvalidGame(index: nat, reason: Reason)

  datatype Image = Image(rom: seq<byte>, sector: seq<byte>)

  /** Cosmetic parts of a table record. */
  datatype Label = Label(code: seq<byte>, title: seq<byte>, graphic: seq<byte>)
  {
    predicate Valid() {
      |code| == 12 && |title| == 44 && |graphic| == 384
    }
  }

  datatype Stamp = Stamp(timestamp: seq<byte>, writer: seq<byte>)
  {
    predicate Valid() {
      |timestamp| == 18 && |writer| == 8
    }
  }

  // --- Headers ------------------------------------------------------------------------

  function MapMbcCode(mbc: byte): (code: nat)
    ensures code < 8
  {
    if mbc in {0x00, 0x08, 0x09} then 0
    else if 0x01 <= mbc <= 0x03 then 1
    else if mbc in {0x05, 0x06} then 2
    else if 0x0F <= mbc <= 0x13 then 3
    else 5
  }

  function RamKibFromHeader(ram: byte): nat {
    if ram == 0x01 then 2 else if ram == 0x02 then 8 else if ram == 0x03 then 32
    else if ram == 0x04 then 128 else if ram == 0x05 then 64 else 0
  }

  function MapRamCode(kib: nat): (code: nat)
    ensures code < 8
  {
    if kib == 2 then 1 else if kib == 8 then 2 else if kib == 32 then 3
    else if kib == 64 then 4 else if kib == 128 then 5 else 0
  }

  function RamKibFromMapCode(code: nat): nat {
    if code == 1 then 2 else if code == 2 then 8 else if code == 3 then 32
    else if code == 4 then 64 else if code == 5 then 128 else 0
  }

  function RomBytes(code: nat): (n: nat)
    ensures n >= 0x8000
  {
    0x8000 * Pow2(code)
  }

  function PaddedBlocks(code: nat): nat {
    Larger((RomBytes(code) + BLOCK - 1) / BLOCK, 1)
  }

  lemma CodeSizes(code: nat)
    requires code <= 7
    ensures RomBytes(code) == [0x8000, 0x1_0000, 0x2_0000, 0x4_0000, 0x8_0000, 0x10_0000, 0x20_0000, 0x40_0000][code]
    ensures code <= 5 ==> PaddedBlocks(code) == [1, 1, 1, 2, 4, 8][code]
  {
    assert Pow2(4) == 16;
    assert Pow2(7) == 128;
    assert Pow2(3) == 8 && Pow2(5) == 32 && Pow2(6) == 64;
  }

  predicate IsMenuRom(header: seq<byte>) {
    |header| >= 0x150
    && header[0x134..0x13D] == [0x4E, 0x50, 0x20, 0x4D, 0x2D, 0x4D, 0x45, 0x4E, 0x55]
    && header[0x147] == 0x19
  }

  /** A header that is there and names a size the cartridge can hold. */
  predicate Placeable(game: seq<byte>) {
    |game| >= 0x150 && game[0x148] <= 5
  }

  function RamKib(game: seq<byte>): (kib: nat)
    requires Placeable(game)
    ensures kib in {0, 2, 8, 32, 64, 128}
  {
    if game[0x147] in {0x05, 0x06} then 8 else RamKibFromHeader(game[0x149])
  }

  function RomCode(game: seq<byte>): (code: nat)
    requires Placeable(game)
    ensures code <= 5
  {
    game[0x148] as nat
  }

  function NaturalSize(game: seq<byte>): nat
    requires Placeable(game)
  {
    RomBytes(RomCode(game))
  }

  function Blocks(game: seq<byte>): (n: nat)
    requires Placeable(game)
    ensures n >= 1
  {
    PaddedBlocks(RomCode(game))
  }

  function LayoutGame(index: nat, game: seq<byte>): Result<(nat, nat, nat, nat), GbMemoryError> {
    if |game| < 0x150 then Err(InvalidGame(index, HeaderTooShort))
    else if game[0x148] > 5 then Err(InvalidGame(index, RomTooLarge))
    else Ok((MapMbcCode(game[0x147]), RomCode(game), RamKib(game), Blocks(game)))
  }

  // --- The map sector -----------------------------------------------------------------

  datatype GameLayout = GameLayout(mbc: nat, romCode: nat, ramCode: nat, ramKib: nat, block: nat, blocks: nat)

  /** Three bytes: mapper, ROM size, RAM size, ROM offset in 32 KiB and RAM offset in 2 KiB units. */
  function MapEntry(mbc: nat, romCode: nat, ramCode: nat, romOff: nat, ramOff: nat): (e: seq<byte>)
    ensures |e| == 3
  {
    [(mbc % 8 * 32 + romCode % 8 * 4 + ramCode / 2 % 4) as byte,
     (ramCode % 2 * 128 + romOff % 64) as byte,
     (ramOff % 64) as byte]
  }

  /** What an entry says, read back bit by bit. */
  datatype Decoded = Decoded(mbc: nat, romCode: nat, ramCode: nat, romOff: nat, ramOff: nat)

  function DecodeEntry(e: seq<byte>): Decoded
    requires |e| == 3
  {
    var b0, b1, b2 := e[0] as nat, e[1] as nat, e[2] as nat;
    Decoded(b0 / 32, b0 / 4 % 8, b0 % 4 * 2 + b1 / 128 % 2, b1 % 64, b2 % 64)
  }

  /** No field that fits its bits is truncated; a larger one loses exactly its high bits. */
  lemma EntryRoundTrip(mbc: nat, romCode: nat, ramCode: nat, romOff: nat, ramOff: nat)
    requires mbc < 8 && romCode < 8 && ramCode < 8
    ensures DecodeEntry(MapEntry(mbc, romCode, ramCode, romOff, ramOff))
         == Decoded(mbc, romCode, ramCode, romOff % 64, ramOff % 64)
  {
    var e := MapEntry(mbc, romCode, ramCode, romOff, ramOff);
    FirstByte(mbc, romCode, ramCode / 2);
    SecondByte(ramCode % 2, romOff % 64);
    assert e[0] as nat == mbc * 32 + romCode * 4 + ramCode / 2;
    assert e[1] as nat == ramCode % 2 * 128 + romOff % 64;
    assert ramOff % 64 % 64 == ramOff % 64;
  }

  lemma FirstByte(mbc: nat, romCode: nat, high: nat)
    requires mbc < 8 && romCode < 8 && high < 4
    ensures var b := mbc * 32 + romCode * 4 + high;
            b < 0x100 && b / 32 == mbc && b / 4 % 8 == romCode && b % 4 == high
  {
    var b := mbc * 32 + romCode * 4 + high;
    assert b / 4 == mbc * 8 + romCode;
  }

  lemma SecondByte(low: nat, off: nat)
    requires low < 2 && off < 64
    ensures var b := low * 128 + off;
            b < 0x100 && b / 128 % 2 == low && b % 64 == off
  {
  }

  const MENU_MAP_ENTRY: seq<byte> := [0xA8, 0x00, 0x00]

  /** KiB of save RAM a game reserves: at least 8. */
  function Reserves(ramKib: nat): nat {
    if ramKib < 8 then 8 else ramKib
  }

  function RamOffset(games: seq<GameLayout>, k: nat): nat
    requires k <= |games|
  {
    if k == 0 then 0 else RamOffset(games, k - 1) + Reserves(games[k - 1].ramKib)
  }

  function EntryOf(games: seq<GameLayout>, k: nat): (e: seq<byte>)
    requires k < |games|
    ensures |e| == 3
  {
    var g := games[k];
    MapEntry(g.mbc, g.romCode, g.ramCode, g.block * 4 % 256, RamOffset(games, k) / 2 % 256)
  }

  function MapEntries(entry0: seq<byte>, games: seq<GameLayout>, k: nat): (m: seq<byte>)
    requires k <= |games|
    ensures |m| == MAP_SIZE
  {
    if k == 0 then Spliced(Filled(MAP_SIZE, FILL), 0, entry0)
    else Spliced(MapEntries(entry0, games, k - 1), 3 + (k - 1) * 3, EntryOf(games, k - 1))
  }

  function WriteCount(old_: Option<seq<byte>>): (n: nat)
    requires old_.Some? ==> |old_.value| == MAP_SIZE
    ensures n < 0x1_0000
  {
    if old_.None? then 0
    else
      var n := old_.value[0x6E] as nat + 0x100 * old_.value[0x6F] as nat;
      if n == 0xFFFF then n else n + 1
  }

  function Trailer(old_: Option<seq<byte>>): (t: seq<byte>)
    requires old_.Some? ==> |old_.value| == MAP_SIZE
    ensures |t| == MAP_SIZE - 0x6E
  {
    var n := WriteCount(old_);
    [(n % 0x100) as byte, (n / 0x100) as byte]
      + (if old_.Some? then old_.value[0x70..0x78] else Filled(8, FILL))
      + Filled(6, FILL) + [0x00, 0x00]
  }

  function BuiltMap(entry0: seq<byte>, games: seq<GameLayout>, old_: Option<seq<byte>>): (m: seq<byte>)
    requires old_.Some? ==> |old_.value| == MAP_SIZE
    ensures |m| == MAP_SIZE
  {
    Spliced(MapEntries(entry0, games, |games|), 0x6E, Trailer(old_))
  }

  method BuildMap(entry0: seq<byte>, games: seq<GameLayout>, old_: Option<seq<byte>>) returns (m: seq<byte>)
    requires |entry0| == 3 && |games| <= MAX_GAMES && (old_.Some? ==> |old_.value| == MAP_SIZE)
    ensures m == BuiltMap(entry0, games, old_)
  {
    hide EntryOf, MapEntry;
    m := Spliced(Filled(MAP_SIZE, FILL), 0, entry0);
    var ramOff := 0;
    for i := 0 to |games|
      invariant ramOff == RamOffset(games, i) && m == MapEntries(entry0, games, i)
    {
      var g := games[i];
      var entry := MapEntry(g.mbc, g.romCode, g.ramCode, g.block * 4 % 256, ramOff / 2 % 256);
      assert entry == EntryOf(games, i) by {
        EntryIs(games, i);
      }
      m := Spliced(m, 3 + i * 3, entry);
      ramOff := ramOff + if g.ramKib < 8 then 8 else g.ramKib;
    }
    ghost var entries := m;
    var count := WriteCount(old_);
    var tail := [(count % 0x100) as byte, (count / 0x100) as byte];
    m := Spliced(m, 0x6E, tail);
    var id := if old_.Some? then old_.value[0x70..0x78] else Filled(8, FILL);
    m := Spliced(m, 0x70, id);
    m := Spliced(m, 0x78, Filled(6, FILL));
    m := m[0x7E := 0x00][0x7F := 0x00];
    assert m == Spliced(entries, 0x6E, ((tail + id) + Filled(6, FILL)) + [0x00, 0x00]);
  }

  lemma EntryIs(games: seq<GameLayout>, k: nat)
    requires k < |games|
    ensures EntryOf(games, k)
         == MapEntry(games[k].mbc, games[k].romCode, games[k].ramCode, games[k].block * 4 % 256,
                     RamOffset(games, k) / 2 % 256)
  {
  }

  /** Entry 0, one entry for each of the first `k` games, and 0xFF from there on. */
  predicate Standing(m: seq<byte>, entry0: seq<byte>, games: seq<GameLayout>, k: nat)
    requires |m| == MAP_SIZE && |entry0| == 3 && k <= |games| <= MAX_GAMES
  {
    && m[..3] == entry0
    && (forall i :: 0 <= i < k ==> m[3 + i * 3..6 + i * 3] == EntryOf(games, i))
    && (forall i :: 3 + k * 3 <= i < MAP_SIZE ==> m[i] == FILL)
  }

  lemma {:induction false} EntriesAre(entry0: seq<byte>, games: seq<GameLayout>, k: nat)
    requires |entry0| == 3 && k <= |games| <= MAX_GAMES
    ensures Standing(MapEntries(entry0, games, k), entry0, games, k)
  {
    hide EntryOf, Spliced, Filled, Standing;
    if k == 0 {
      NoEntries(entry0, games);
    } else {
      EntriesAre(entry0, games, k - 1);
      OneMoreEntry(MapEntries(entry0, games, k - 1), entry0, games, k - 1);
    }
  }

  lemma OneMoreEntry(before: seq<byte>, entry0: seq<byte>, games: seq<GameLayout>, k: nat)
    requires |before| == MAP_SIZE && |entry0| == 3 && k < |games| <= MAX_GAMES
    requires Standing(before, entry0, games, k)
    ensures Standing(Spliced(before, 3 + k * 3, EntryOf(games, k)), entry0, games, k + 1)
  {
    hide EntryOf;
    var e := EntryOf(games, k);
    var m := Spliced(before, 3 + k * 3, e);
    SplicedStretch(before, 3 + k * 3, e, 0, 3);
    hide Spliced;
    assert m[..3] == m[0..3] && before[..3] == before[0..3];
    forall i | 0 <= i < k + 1
      ensures m[3 + i * 3..6 + i * 3] == EntryOf(games, i)
    {
      EntryAfter(before, e, k, i);
    }
  }

  lemma NoEntries(entry0: seq<byte>, games: seq<GameLayout>)
    requires |entry0| == 3 && |games| <= MAX_GAMES
    ensures Standing(Spliced(Filled(MAP_SIZE, FILL), 0, entry0), entry0, games, 0)
  {
  }

  lemma EntryAfter(before: seq<byte>, e: seq<byte>, at: nat, i: nat)
    requires |before| == MAP_SIZE && |e| == 3 && i <= at < MAX_GAMES
    ensures Spliced(before, 3 + at * 3, e)[3 + i * 3..6 + i * 3] == if i == at then e else before[3 + i * 3..6 + i * 3]
  {
  }

  lemma MapSector(entry0: seq<byte>, games: seq<GameLayout>, old_: Option<seq<byte>>)
    requires |entry0| == 3 && |games| <= MAX_GAMES && (old_.Some? ==> |old_.value| == MAP_SIZE)
    ensures var m := BuiltMap(entry0, games, old_);
            && m[..3] == entry0
            && (forall k :: 0 <= k < |games| ==> m[3 * (k + 1)..3 * (k + 1) + 3] == EntryOf(games, k))
            && (forall k :: |games| < k < 8 ==> m[3 * k..3 * k + 3] == [FILL, FILL, FILL])
            && m[0x6E] as nat + 0x100 * m[0x6F] as nat == WriteCount(old_)
            && (old_.Some? ==> m[0x70..0x78] == old_.value[0x70..0x78])
            && m[0x7F] == 0x00
  {
    hide EntryOf, MapEntries, Trailer, WriteCount;
    var entries, m := MapEntries(entry0, games, |games|), BuiltMap(entry0, games, old_);
    EntriesAre(entry0, games, |games|);
    assert m[..24] == entries[..24];
    FrontKept(entries, m);
    forall k | 0 <= k < |games|
      ensures m[3 * (k + 1)..3 * (k + 1) + 3] == EntryOf(games, k)
    {
      assert entries[3 + k * 3..6 + k * 3] == EntryOf(games, k);
    }
    TrailerParts(m, old_);
  }

  /** The trailer leaves the entries alone. */
  lemma FrontKept(entries: seq<byte>, m: seq<byte>)
    requires |entries| == |m| == MAP_SIZE && m[..24] == entries[..24]
    ensures forall k :: 0 <= k < 8 ==> m[3 * k..3 * k + 3] == entries[3 * k..3 * k + 3]
    ensures m[..3] == entries[..3]
  {
    forall k | 0 <= k < 8
      ensures m[3 * k..3 * k + 3] == entries[3 * k..3 * k + 3]
    {
      assert m[3 * k..3 * k + 3] == m[..24][3 * k..3 * k + 3];
      assert entries[3 * k..3 * k + 3] == entries[..24][3 * k..3 * k + 3];
    }
    assert m[..3] == m[..24][..3] && entries[..3] == entries[..24][..3];
  }

  lemma TrailerParts(m: seq<byte>, old_: Option<seq<byte>>)
    requires old_.Some? ==> |old_.value| == MAP_SIZE
    requires |m| == MAP_SIZE && forall i :: 0x6E <= i < MAP_SIZE ==> m[i] == Trailer(old_)[i - 0x6E]
    ensures m[0x6E] as nat + 0x100 * m[0x6F] as nat == WriteCount(old_)
    ensures old_.Some? ==> m[0x70..0x78] == old_.value[0x70..0x78]
    ensures m[0x7F] == 0x00
  {
    hide WriteCount;
    var t := Trailer(old_);
    assert m[0x6E] == t[0] && m[0x6F] == t[1] && m[0x7F] == t[0x11];
    if old_.Some? {
      assert m[0x70..0x78] == t[2..10];
      assert t[2..10] == old_.value[0x70..0x78];
    }
  }

  // --- Assembly -----------------------------------------------------------------------

  predicate AllPlaceable(games: seq<seq<byte>>) {
    forall i :: 0 <= i < |games| ==> Placeable(games[i])
  }

  /** The block the `k`th game starts at; the one past the last game when `k` is their number. */
  function BlockOf(games: seq<seq<byte>>, k: nat): (b: nat)
    requires k <= |games| && AllPlaceable(games)
    ensures b >= 1
  {
    if k == 0 then 1 else BlockOf(games, k - 1) + Blocks(games[k - 1])
  }

  function LayoutOf(games: seq<seq<byte>>, k: nat): GameLayout
    requires k < |games| && AllPlaceable(games)
  {
    var g := games[k];
    GameLayout(MapMbcCode(g[0x147]), RomCode(g), MapRamCode(RamKib(g)), RamKib(g), BlockOf(games, k), Blocks(g))
  }

  function Layouts(games: seq<seq<byte>>, n: nat): (l: seq<GameLayout>)
    requires n <= |games| && AllPlaceable(games)
    ensures |l| == n
  {
    seq(n, k requires 0 <= k < n => LayoutOf(games, k))
  }

  /** One record of the menu's table. */
  function Record(slot: nat, g: GameLayout, text: Label, stamp: Stamp): (r: seq<byte>)
    requires slot < MAX_GAMES && g.block < 0x100 && g.blocks < 0x1_0000 && text.Valid() && stamp.Valid()
    ensures |r| == TABLE_RECORD
  {
    [(slot + 1) as byte, g.block as byte, 0x00, (g.blocks % 0x100) as byte, (g.blocks / 0x100) as byte, 0x00, 0x00]
      + text.code + text.title + text.graphic + stamp.timestamp + stamp.writer + Filled(39, FILL)
  }

  method WriteTableRecord(rom: seq<byte>, slot: nat, g: GameLayout, text: Label, stamp: Stamp)
    returns (r: seq<byte>)
    requires slot < MAX_GAMES && g.block < 0x100 && g.blocks < 0x1_0000 && text.Valid() && stamp.Valid()
    requires |rom| == IMAGE_SIZE
    ensures r == Spliced(rom, TABLE_BASE + (slot + 1) * TABLE_RECORD, Record(slot, g, text, stamp))
  {
    var base := TABLE_BASE + (slot + 1) * TABLE_RECORD;
    if base + TABLE_RECORD > |rom| {
      return rom;
    }
    var rec := Filled(TABLE_RECORD, 0x00);
    rec := rec[0x00 := (slot + 1) as byte][0x01 := g.block as byte][0x02 := 0x00];
    rec := Spliced(rec, 0x03, [(g.blocks % 0x100) as byte, (g.blocks / 0x100) as byte]);
    rec := Spliced(rec, 0x05, [0x00, 0x00]);
    rec := Spliced(rec, 0x07, text.code);
    rec := Spliced(rec, 0x13, text.title);
    rec := Spliced(rec, 0x3F, text.graphic);
    rec := Spliced(rec, 0x1BF, stamp.timestamp);
    rec := Spliced(rec, 0x1D1, stamp.writer);
    rec := Spliced(rec, 0x1D9, Filled(0x1F0 - 0x1D9, FILL));
    rec := Spliced(rec, 0x1F0, Filled(0x200 - 0x1F0, FILL));
    RecordIs(rec, slot, g, text, stamp);
    r := Spliced(rom, base, rec);
  }

  lemma RecordIs(rec: seq<byte>, slot: nat, g: GameLayout, text: Label, stamp: Stamp)
    requires slot < MAX_GAMES && g.block < 0x100 && g.blocks < 0x1_0000 && text.Valid() && stamp.Valid()
    requires |rec| == TABLE_RECORD
    requires rec[..7] == [(slot + 1) as byte, g.block as byte, 0x00, (g.blocks % 0x100) as byte,
                          (g.blocks / 0x100) as byte, 0x00, 0x00]
    requires rec[0x07..0x13] == text.code && rec[0x13..0x3F] == text.title && rec[0x3F..0x1BF] == text.graphic
    requires rec[0x1BF..0x1D1] == stamp.timestamp && rec[0x1D1..0x1D9] == stamp.writer
    requires rec[0x1D9..] == Filled(39, FILL)
    ensures rec == Record(slot, g, text, stamp)
  {
    assert rec == rec[..7] + rec[0x07..0x13] + rec[0x13..0x3F] + rec[0x3F..0x1BF] + rec[0x1BF..0x1D1]
               + rec[0x1D1..0x1D9] + rec[0x1D9..];
  }

  /** As much of a game as its blocks hold. */
  function Taken(game: seq<byte>): (s: seq<byte>)
    requires Placeable(game)
  {
    game[..Smaller(|game|, Blocks(game) * BLOCK)]
  }

  /** The flash image after the first `k` games. */
  function WithGames(menu: seq<byte>, games: seq<seq<byte>>, labels: seq<Label>, stamp: Stamp, k: nat): (r: seq<byte>)
    requires k <= |games| <= MAX_GAMES && |labels| == |games| && AllPlaceable(games) && |menu| >= MENU_SIZE
    requires BlockOf(games, |games|) <= 8 && stamp.Valid() && forall i :: 0 <= i < |labels| ==> labels[i].Valid()
    ensures |r| == IMAGE_SIZE
  {
    if k == 0 then Spliced(Filled(IMAGE_SIZE, FILL), 0, menu[..MENU_SIZE])
    else
      BlocksRise(games, k - 1, |games|);
      var before := WithGames(menu, games, labels, stamp, k - 1);
      var placed := Spliced(before, BlockOf(games, k - 1) * BLOCK, Taken(games[k - 1]));
      Spliced(placed, TABLE_BASE + k * TABLE_RECORD, Record(k - 1, LayoutOf(games, k - 1), labels[k - 1], stamp))
  }

  lemma {:induction false} BlocksRise(games: seq<seq<byte>>, i: nat, k: nat)
    requires i < k <= |games| && AllPlaceable(games)
    ensures BlockOf(games, i) + Blocks(games[i]) <= BlockOf(games, k)
    decreases k
  {
    if i < k - 1 {
      BlocksRise(games, i, k - 1);
    }
  }

  /** The first game that cannot be placed, among the first `k`. */
  function FirstError(games: seq<seq<byte>>, k: nat): Option<GbMemoryError>
    requires k <= |games|
  {
    if k == 0 then None
    else if FirstError(games, k - 1).Some? then FirstError(games, k - 1)
    else
      var l := LayoutGame(k - 1, games[k - 1]);
      if l.Err? then Some(l.error) else None
  }

  lemma {:induction false} NoFirstError(games: seq<seq<byte>>, k: nat)
    requires k <= |games|
    ensures FirstError(games, k).None? <==> AllPlaceable(games[..k])
  {
    if k > 0 {
      NoFirstError(games, k - 1);
      assert games[..k] == games[..k - 1] + [games[k - 1]];
      OneMore(games[..k - 1], games[k - 1]);
    }
  }

  lemma OneMore(games: seq<seq<byte>>, game: seq<byte>)
    ensures AllPlaceable(games + [game]) <==> AllPlaceable(games) && Placeable(game)
  {
    var all := games + [game];
    assert all[|games|] == game;
    assert forall i :: 0 <= i < |games| ==> all[i] == games[i];
  }

  /** Why a menu image cannot be put together, checks in order; nothing when it can. */
  function AssembleError(menu: seq<byte>, games: seq<seq<byte>>): Option<GbMemoryError> {
    if games == [] then Some(NoGames)
    else if |games| > MAX_GAMES then Some(TooManyGames(|games|))
    else if |menu| < MENU_SIZE || !IsMenuRom(menu) then Some(InvalidMenu)
    else if FirstError(games, |games|).Some? then FirstError(games, |games|)
    else
      NoFirstError(games, |games|);
      assert games[..|games|] == games;
      var used := (BlockOf(games, |games|) - 1) * BLOCK;
      if used > GAME_BUDGET then Some(ImageTooLarge(used, GAME_BUDGET)) else None
  }

  /** What `assemble` asks of its other inputs by their types. */
  predicate Stamped(games: seq<seq<byte>>, texts: seq<Label>, stamp: Stamp, carried: Option<seq<byte>>) {
    && |texts| == |games| && stamp.Valid() && (forall i :: 0 <= i < |texts| ==> texts[i].Valid())
    && (carried.Some? ==> |carried.value| == MAP_SIZE)
  }

  lemma Accepted(menu: seq<byte>, games: seq<seq<byte>>)
    requires AssembleError(menu, games).None?
    ensures 1 <= |games| <= MAX_GAMES && |menu| >= MENU_SIZE && IsMenuRom(menu)
    ensures AllPlaceable(games) && BlockOf(games, |games|) <= 8
  {
    NoFirstError(games, |games|);
    assert games[..|games|] == games;
  }

  /** The assembled cartridge. */
  function Assembled(menu: seq<byte>, games: seq<seq<byte>>, texts: seq<Label>, stamp: Stamp,
                     carried: Option<seq<byte>>): Image
    requires Stamped(games, texts, stamp, carried) && AssembleError(menu, games).None?
  {
    Accepted(menu, games);
    Image(WithGames(menu, games, texts, stamp, |games|),
          BuiltMap(MENU_MAP_ENTRY, Layouts(games, |games|), carried))
  }

  /** Decode and place every game. */
  method PlaceGames(games: seq<seq<byte>>) returns (r: Result<(seq<GameLayout>, nat), GbMemoryError>)
    ensures var e := FirstError(games, |games|);
            if e.Some? then r == Err(e.value)
            else AllPlaceable(games) && r == Ok((Layouts(games, |games|), BlockOf(games, |games|)))
  {
    var layouts, block := [], 1;
    for i := 0 to |games|
      invariant FirstError(games, i).None? && AllPlaceable(games[..i])
      invariant layouts == Layouts(games[..i], i) && block == BlockOf(games[..i], i)
    {
      var l := LayoutGame(i, games[i]);
      if l.Err? {
        FirstErrorStays(games, i + 1);
        return Err(l.error);
      }
      var (mbc, romCode, ramKib, blocks) := l.value;
      NoFirstError(games, i + 1);
      PrefixPlaces(games[..i + 1], i);
      assert games[..i + 1][..i] == games[..i];
      layouts := layouts + [GameLayout(mbc, romCode, MapRamCode(ramKib), ramKib, block, blocks)];
      assert layouts == Layouts(games[..i + 1], i + 1);
      block := block + blocks;
    }
    assert games[..|games|] == games;
    r := Ok((layouts, block));
  }

  lemma {:induction false} FirstErrorStays(games: seq<seq<byte>>, k: nat)
    requires k <= |games| && FirstError(games, k).Some?
    ensures FirstError(games, |games|) == FirstError(games, k)
    decreases |games| - k
  {
    if k < |games| {
      FirstErrorStays(games, k + 1);
    }
  }

  /** Where a game lies depends only on the games before it. */
  lemma {:induction false} PrefixPlaces(games: seq<seq<byte>>, k: nat)
    requires k <= |games| && AllPlaceable(games)
    ensures AllPlaceable(games[..k]) && BlockOf(games[..k], k) == BlockOf(games, k)
    ensures Layouts(games[..k], k) == Layouts(games, k)
    decreases k
  {
    if k > 0 {
      PrefixPlaces(games, k - 1);
      var g := games[..k];
      assert g[..k - 1] == games[..k - 1];
      PrefixPlaces(g, k - 1);
      forall j | 0 <= j < k
        ensures LayoutOf(g, j) == LayoutOf(games, j)
      {
        PrefixPlaces(g, j);
        PrefixPlaces(games, j);
        assert g[..j] == games[..j];
      }
    }
  }

  /** Assemble a menu image: the menu plus one to seven games. */
  method Assemble(menu: seq<byte>, games: seq<seq<byte>>, texts: seq<Label>, carried: Option<seq<byte>>, stamp: Stamp)
    returns (r: Result<Image, GbMemoryError>)
    requires Stamped(games, texts, stamp, carried)
    ensures var e := AssembleError(menu, games);
            r == if e.Some? then Err(e.value) else Ok(Assembled(menu, games, texts, stamp, carried))
  {
    hide BuiltMap, IsMenuRom, Record, LayoutOf;
    if games == [] {
      return Err(NoGames);
    }
    if |games| > MAX_GAMES {
      return Err(TooManyGames(|games|));
    }
    if |menu| < MENU_SIZE || !IsMenuRom(menu) {
      return Err(InvalidMenu);
    }
    var placed := PlaceGames(games);
    if placed.Err? {
      return Err(placed.error);
    }
    var (layouts, block) := placed.value;
    var used := (block - 1) * BLOCK;
    if used > GAME_BUDGET {
      return Err(ImageTooLarge(used, GAME_BUDGET));
    }
    Accepted(menu, games);
    var rom := PaintGames(menu, games, layouts, texts, stamp);
    var sector := BuildMap(MENU_MAP_ENTRY, layouts, carried);
    r := Ok(Image(rom, sector));
  }

  /** Lay menu, games and table records into erased flash. */
  method PaintGames(menu: seq<byte>, games: seq<seq<byte>>, layouts: seq<GameLayout>, texts: seq<Label>, stamp: Stamp)
    returns (rom: seq<byte>)
    requires |games| <= MAX_GAMES && |texts| == |games| && AllPlaceable(games) && |menu| >= MENU_SIZE
    requires BlockOf(games, |games|) <= 8 && stamp.Valid() && forall i :: 0 <= i < |texts| ==> texts[i].Valid()
    requires layouts == Layouts(games, |games|)
    ensures rom == WithGames(menu, games, texts, stamp, |games|)
  {
    hide Record, Spliced, Placeable, Blocks, BlockOf, WithGames;
    rom := Spliced(Filled(IMAGE_SIZE, FILL), 0, menu[..MENU_SIZE]);
    WithNoGames(menu, games, texts, stamp);
    for i := 0 to |games|
      invariant rom == WithGames(menu, games, texts, stamp, i)
    {
      BlocksRise(games, i, |games|);
      var game, l := games[i], layouts[i];
      WithOneGame(menu, games, texts, stamp, i);
      var off := l.block * BLOCK;
      var end := Smaller(off + l.blocks * BLOCK, IMAGE_SIZE);
      var take := Smaller(|game|, end - off);
      rom := Spliced(rom, off, game[..take]);
      rom := WriteTableRecord(rom, i, l, texts[i], stamp);
    }
  }

  lemma WithNoGames(menu: seq<byte>, games: seq<seq<byte>>, texts: seq<Label>, stamp: Stamp)
    requires |games| <= MAX_GAMES && |texts| == |games| && AllPlaceable(games) && |menu| >= MENU_SIZE
    requires BlockOf(games, |games|) <= 8 && stamp.Valid() && forall i :: 0 <= i < |texts| ==> texts[i].Valid()
    ensures WithGames(menu, games, texts, stamp, 0) == Spliced(Filled(IMAGE_SIZE, FILL), 0, menu[..MENU_SIZE])
  {
  }

  lemma WithOneGame(menu: seq<byte>, games: seq<seq<byte>>, texts: seq<Label>, stamp: Stamp, k: nat)
    requires k < |games| <= MAX_GAMES && |texts| == |games| && AllPlaceable(games) && |menu| >= MENU_SIZE
    requires BlockOf(games, |games|) <= 8 && stamp.Valid() && forall i :: 0 <= i < |texts| ==> texts[i].Valid()
    ensures var l := LayoutOf(games, k);
            && l.block == BlockOf(games, k) && l.blocks == Blocks(games[k]) && l.block + l.blocks <= 8
            && WithGames(menu, games, texts, stamp, k + 1)
               == Spliced(Spliced(WithGames(menu, games, texts, stamp, k), l.block * BLOCK, Taken(games[k])),
                          TABLE_BASE + (k + 1) * TABLE_RECORD, Record(k, l, texts[k], stamp))
  {
    hide Spliced, Record, Taken, Blocks, Placeable;
    BlocksRise(games, k, |games|);
  }

  // --- What the assembled flash holds ---------------------------------------------------

  /** The table record that holds byte `j` of the menu region, if it is one of `k`. */
  predicate InTable(j: nat, k: nat) {
    TABLE_BASE + TABLE_RECORD <= j < TABLE_BASE + (k + 1) * TABLE_RECORD
  }

  /** Outside the records of the games the menu region is the menu, byte for byte. */
  lemma {:induction false} MenuKept(menu: seq<byte>, games: seq<seq<byte>>, texts: seq<Label>, stamp: Stamp, k: nat,
                                    j: nat)
    requires k <= |games| <= MAX_GAMES && |texts| == |games| && AllPlaceable(games) && |menu| >= MENU_SIZE
    requires BlockOf(games, |games|) <= 8 && stamp.Valid() && forall i :: 0 <= i < |texts| ==> texts[i].Valid()
    requires j < MENU_SIZE && !InTable(j, k)
    ensures WithGames(menu, games, texts, stamp, k)[j] == menu[j]
  {
    hide Record, LayoutOf;
    if k > 0 {
      MenuKept(menu, games, texts, stamp, k - 1, j);
    }
  }

  /** Placing a game past the menu and its record keeps every earlier record. */
  lemma RecordOutlasts(image: seq<byte>, start: nat, taken: seq<byte>, k: nat, last: seq<byte>, i: nat)
    requires |image| == IMAGE_SIZE && start >= BLOCK && i < k <= MAX_GAMES && |last| == TABLE_RECORD
    ensures var at := TABLE_BASE + (i + 1) * TABLE_RECORD;
            var after := Spliced(Spliced(image, start, taken), TABLE_BASE + k * TABLE_RECORD, last);
            after[at..at + TABLE_RECORD] == if i == k - 1 then last else image[at..at + TABLE_RECORD]
  {
    hide Spliced;
    var at := TABLE_BASE + (i + 1) * TABLE_RECORD;
    SplicedStretch(image, start, taken, at, TABLE_RECORD);
    SplicedStretch(Spliced(image, start, taken), TABLE_BASE + k * TABLE_RECORD, last, at, TABLE_RECORD);
  }

  /** Record `i` is where the menu looks for it. */
  lemma {:induction false} RecordPlaced(menu: seq<byte>, games: seq<seq<byte>>, texts: seq<Label>, stamp: Stamp,
                                        k: nat, i: nat)
    requires i < k <= |games| <= MAX_GAMES && |texts| == |games| && AllPlaceable(games) && |menu| >= MENU_SIZE
    requires BlockOf(games, |games|) <= 8 && stamp.Valid() && forall i :: 0 <= i < |texts| ==> texts[i].Valid()
    requires LayoutOf(games, i).block < 0x100 && LayoutOf(games, i).blocks < 0x1_0000
    ensures var at := TABLE_BASE + (i + 1) * TABLE_RECORD;
            WithGames(menu, games, texts, stamp, k)[at..at + TABLE_RECORD]
              == Record(i, LayoutOf(games, i), texts[i], stamp)
  {
    hide Record, Spliced, Taken, BlockOf;
    BlocksRise(games, k - 1, |games|);
    var at := TABLE_BASE + (i + 1) * TABLE_RECORD;
    var before := WithGames(menu, games, texts, stamp, k - 1);
    var start, taken := BlockOf(games, k - 1) * BLOCK, Taken(games[k - 1]);
    var last := Record(k - 1, LayoutOf(games, k - 1), texts[k - 1], stamp);
    RecordOutlasts(before, start, taken, k, last, i);
    if i < k - 1 {
      RecordPlaced(menu, games, texts, stamp, k - 1, i);
    }
  }

  /** What byte `j` of a game's blocks holds: the game, then erased flash. */
  function CellOf(game: seq<byte>, j: nat): byte {
    if j < |game| then game[j] else FILL
  }

  /** Every game has its blocks to itself, and the blocks after the last game stay erased. */
  lemma {:induction false} GamePlaced(menu: seq<byte>, games: seq<seq<byte>>, texts: seq<Label>, stamp: Stamp, k: nat)
    requires k <= |games| <= MAX_GAMES && |texts| == |games| && AllPlaceable(games) && |menu| >= MENU_SIZE
    requires BlockOf(games, |games|) <= 8 && stamp.Valid() && forall i :: 0 <= i < |texts| ==> texts[i].Valid()
    ensures BlockOf(games, k) <= 8
    ensures forall j :: BlockOf(games, k) * BLOCK <= j < IMAGE_SIZE ==>
      WithGames(menu, games, texts, stamp, k)[j] == FILL
    ensures forall i :: 0 <= i < k ==> Holding(WithGames(menu, games, texts, stamp, k), games, i)
  {
    hide Record, LayoutOf, Placeable, WithGames, Holding;
    var off := BlockOf(games, k) * BLOCK;
    if k < |games| {
      BlocksRise(games, k, |games|);
    }
    if k == 0 {
      NoGamesYet(menu, games, texts, stamp);
    } else {
      GamePlaced(menu, games, texts, stamp, k - 1);
      BlocksRise(games, k - 1, k);
      var before, rom := WithGames(menu, games, texts, stamp, k - 1), WithGames(menu, games, texts, stamp, k);
      GameStep(menu, games, texts, stamp, k);
      forall i | 0 <= i < k
        ensures Holding(rom, games, i)
      {
        if i < k - 1 {
          BlocksRise(games, i, k - 1);
          HoldingStays(before, rom, games, i);
        } else {
          HoldingNew(before, rom, games, i);
        }
      }
    }
  }

  lemma NoGamesYet(menu: seq<byte>, games: seq<seq<byte>>, texts: seq<Label>, stamp: Stamp)
    requires |games| <= MAX_GAMES && |texts| == |games| && AllPlaceable(games) && |menu| >= MENU_SIZE
    requires BlockOf(games, |games|) <= 8 && stamp.Valid() && forall i :: 0 <= i < |texts| ==> texts[i].Valid()
    ensures forall j :: BLOCK <= j < IMAGE_SIZE ==> WithGames(menu, games, texts, stamp, 0)[j] == FILL
  {
  }

  /** Placing a game changes its own cells and, below the first game block, its table record. */
  lemma GameStep(menu: seq<byte>, games: seq<seq<byte>>, texts: seq<Label>, stamp: Stamp, k: nat)
    requires 0 < k <= |games| <= MAX_GAMES && |texts| == |games| && AllPlaceable(games) && |menu| >= MENU_SIZE
    requires BlockOf(games, |games|) <= 8 && stamp.Valid() && forall i :: 0 <= i < |texts| ==> texts[i].Valid()
    ensures Painted(WithGames(menu, games, texts, stamp, k - 1), WithGames(menu, games, texts, stamp, k),
                    BlockOf(games, k - 1) * BLOCK, Taken(games[k - 1]))
  {
    hide Record, LayoutOf, Placeable, BlockOf, Taken;
    BlocksRise(games, k - 1, |games|);
  }

  /** From the first game block on, `rom` is `before` with `data` laid over it. */
  predicate Painted(before: seq<byte>, rom: seq<byte>, off: nat, data: seq<byte>)
    requires |before| == |rom| == IMAGE_SIZE
  {
    forall j :: BLOCK <= j < IMAGE_SIZE ==> rom[j] == if off <= j < off + |data| then data[j - off] else before[j]
  }

  lemma HoldingNew(before: seq<byte>, rom: seq<byte>, games: seq<seq<byte>>, i: nat)
    requires i < |games| && AllPlaceable(games) && |before| == |rom| == IMAGE_SIZE
    requires BlockOf(games, i) + Blocks(games[i]) <= 8
    requires Painted(before, rom, BlockOf(games, i) * BLOCK, Taken(games[i]))
    requires forall j :: BlockOf(games, i) * BLOCK <= j < IMAGE_SIZE ==> before[j] == FILL
    ensures Holding(rom, games, i)
  {
    hide BlockOf, Blocks;
  }

  /** The blocks of game `i` hold it. */
  predicate Holding(rom: seq<byte>, games: seq<seq<byte>>, i: nat)
    requires i < |games| && AllPlaceable(games) && |rom| == IMAGE_SIZE
  {
    var off := BlockOf(games, i) * BLOCK;
    && off + Blocks(games[i]) * BLOCK <= IMAGE_SIZE
    && forall j :: off <= j < off + Blocks(games[i]) * BLOCK ==> rom[j] == CellOf(games[i], j - off)
  }

  lemma HoldingStays(before: seq<byte>, rom: seq<byte>, games: seq<seq<byte>>, i: nat)
    requires i < |games| && AllPlaceable(games) && |before| == |rom| == IMAGE_SIZE && Holding(before, games, i)
    requires exists off, data ::
      off >= (BlockOf(games, i) + Blocks(games[i])) * BLOCK && Painted(before, rom, off, data)
    ensures Holding(rom, games, i)
  {
    hide BlockOf, Blocks;
  }

  /** A game as extraction gives it back: cut or filled up to the size its header names. */
  function Fit(game: seq<byte>): (s: seq<byte>)
    requires Placeable(game)
    ensures |s| == NaturalSize(game)
  {
    seq(NaturalSize(game), j requires 0 <= j < NaturalSize(game) => CellOf(game, j))
  }

  /** A game of the size its header names comes back as it is. */
  lemma FitNatural(game: seq<byte>)
    requires Placeable(game) && |game| == NaturalSize(game)
    ensures Fit(game) == game
  {
  }
}
