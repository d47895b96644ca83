/** From games to a cartridge and back: assemble, write, read, extract. */
module GbMemoryEndToEnd {
  import opened Bytes
  import opened GbxDriver
  import opened SimGbMemory
  import opened GbMemoryDriver
  import opened GbMemoryFlows
  import I = GbMemoryImage
  import X = GbMemoryExtract

  datatype Failure = NotAssembled(reason: I.GbMemoryError) | OnDevice(error: DeviceError)

  /**
   Whatever the cartridge held and whatever times out on the link, games that come back are the
   ones that went on. Over a lossless link they do come back, unless the map happens to equal the
   first 128 bytes of the menu.
   */
  method StoreAndRecover(dev: GbMemoryCart, menu: seq<byte>, games: seq<seq<byte>>, texts: seq<I.Label>,
      carried: Option<seq<byte>>, stamp: I.Stamp, patience: nat)
    returns (r: Result<seq<X.ExtractedGame>, Failure>)
    requires dev.io.Ready() && dev.io.out == [] && I.Stamped(games, texts, stamp, carried)
    modifies dev.io
    ensures var e := I.AssembleError(menu, games);
            if e.Some? then r == Err(NotAssembled(e.value)) && dev.io.Value() == old(dev.io.Value())
            else I.AllPlaceable(games) && |menu| >= MAP_SIZE
    ensures I.AssembleError(menu, games).None? && r.Ok? ==>
      && r.value == X.AllReturned(games, |games|)
      && (X.Natural(games) ==> X.Datas(r.value) == games)
    ensures I.AssembleError(menu, games).None? && !dev.io.lossy && patience >= 2 ==>
      (r.Ok? <==> I.Assembled(menu, games, texts, stamp, carried).sector != menu[..MAP_SIZE])
  {
    hide X.Extracted, X.AllReturned, X.Natural, I.WithGames, I.BuiltMap, I.IsMenuRom;
    var assembled := I.Assemble(menu, games, texts, carried, stamp);
    if assembled.Err? {
      return Err(NotAssembled(assembled.error));
    }
    var image := assembled.value;
    I.Accepted(menu, games);
    X.ExtractAssembled(menu, games, texts, stamp, carried);
    StartsWithMenu(menu, games, texts, stamp, carried);
    var back := WriteThenRead(dev, image.rom, image.sector, patience);
    if back.Err? {
      return Err(OnDevice(back.error));
    }
    var found := X.ExtractGames(back.value.0, back.value.1);
    if X.Natural(games) {
      X.NaturalReturned(games, |games|);
      assert games[..|games|] == games;
    }
    r := Ok(found);
  }

  lemma StartsWithMenu(menu: seq<byte>, games: seq<seq<byte>>, texts: seq<I.Label>, stamp: I.Stamp,
                       carried: Option<seq<byte>>)
    requires I.Stamped(games, texts, stamp, carried) && I.AssembleError(menu, games).None?
    ensures |menu| >= I.MENU_SIZE
    ensures var image := I.Assembled(menu, games, texts, stamp, carried);
            |image.rom| == IMAGE_SIZE && image.rom[..MAP_SIZE] == menu[..MAP_SIZE]
  {
    hide I.WithGames, I.BuiltMap, I.IsMenuRom;
    I.Accepted(menu, games);
    forall j | 0 <= j < MAP_SIZE
      ensures I.WithGames(menu, games, texts, stamp, |games|)[j] == menu[j]
    {
      I.MenuKept(menu, games, texts, stamp, |games|, j);
    }
  }
}
