/**
 The saves of a GB Memory cartridge share 128 KiB of RAM. Each game's slot is read back from the
 map; saves are taken out of, and put back into, one image of the whole RAM.
 */
module SaveSlots {
  import opened Bytes
  import opened GbMemoryImage
  import opened GbMemoryExtract

  const SRAM_KIB: nat := 128
  const SRAM_SIZE: nat := 0x2_0000

  /** A slot that ends inside the RAM. */
  predicate Inside(g: ExtractedGame) {
    g.saveOffset + g.saveSize <= SRAM_SIZE
  }

  predicate Apart(g: ExtractedGame, h: ExtractedGame) {
    g.saveOffset + g.saveSize <= h.saveOffset || h.saveOffset + h.saveSize <= g.saveOffset
  }

  /** Every save has cells of its own. */
  predicate Isolated(games: seq<ExtractedGame>) {
    && (forall i :: 0 <= i < |games| && games[i].saveSize > 0 ==> Inside(games[i]))
    && (forall i, j :: 0 <= i < j < |games| && games[i].saveSize > 0 && games[j].saveSize > 0 ==>
          Apart(games[i], games[j]))
  }

  /** The slot in the map is the one the writer laid out exactly when that ends within the 128 KiB. */
  lemma SlotRecovered(games: seq<seq<byte>>, k: nat)
    requires k < |games| && AllPlaceable(games) && RamKib(games[k]) > 0
    ensures (Returned(games, k).saveOffset == Reserved(games, k) * 1024 && Inside(Returned(games, k)))
      <==> Reserved(games, k) + RamKib(games[k]) <= SRAM_KIB
  {
    hide RamKib, Reserved, Fit;
    var r := Reserved(games, k);
    if r < SRAM_KIB {
      assert r * 1024 % SRAM_SIZE == r * 1024;
    }
  }

  lemma {:induction false} ReservedRises(games: seq<seq<byte>>, i: nat, k: nat)
    requires i < k <= |games| && AllPlaceable(games)
    ensures Reserved(games, i) + RamKib(games[i]) <= Reserved(games, k)
    decreases k
  {
    hide RamKib;
    if i < k - 1 {
      ReservedRises(games, i, k - 1);
    }
  }

  /** Slots found among the first `k` games lie below what those reserve. */
  predicate Below(g: ExtractedGame, kib: nat) {
    g.saveSize > 0 ==> g.saveOffset + g.saveSize <= kib * 1024
  }

  lemma {:induction false} SlotsIsolated(games: seq<seq<byte>>, k: nat)
    requires k <= |games| && AllPlaceable(games) && Reserved(games, k) <= SRAM_KIB
    ensures Isolated(AllReturned(games, k))
    ensures forall i :: 0 <= i < |AllReturned(games, k)| ==> Below(AllReturned(games, k)[i], Reserved(games, k))
  {
    hide Fit, RamKib, IsMenuRom, Returned;
    if k > 0 {
      ReservedRises(games, k - 1, k);
      SlotsIsolated(games, k - 1);
      LastSlot(games, k - 1);
    }
  }

  lemma LastSlot(games: seq<seq<byte>>, k: nat)
    requires k < |games| && AllPlaceable(games) && Reserved(games, k + 1) <= SRAM_KIB
    ensures var g := Returned(games, k);
            && Below(g, Reserved(games, k + 1))
            && (g.saveSize > 0 ==> Inside(g) && g.saveOffset == Reserved(games, k) * 1024)
  {
    hide Reserved, Fit;
    ReservedRises(games, k, k + 1);
    if RamKib(games[k]) > 0 {
      SlotRecovered(games, k);
    }
  }

  /** Reservations of at most 128 KiB: the slots extracted from the cartridge are disjoint and inside the RAM. */
  lemma BudgetIsolates(menu: seq<byte>, games: seq<seq<byte>>, texts: seq<Label>, stamp: Stamp,
                       carried: Option<seq<byte>>)
    requires Stamped(games, texts, stamp, carried) && AssembleError(menu, games).None?
    requires AllPlaceable(games) && Reserved(games, |games|) <= SRAM_KIB
    ensures var image := Assembled(menu, games, texts, stamp, carried);
            |image.sector| == MAP_SIZE && Isolated(Extracted(image.rom, image.sector, 8))
  {
    hide Isolated, Extracted, AllReturned, Assembled;
    ExtractAssembled(menu, games, texts, stamp, carried);
    SlotsIsolated(games, |games|);
  }

  // --- What isolation needs ---------------------------------------------------------------

  /** The `n` cells from `lo` on. */
  function Range(lo: nat, n: nat): (r: set<nat>)
    ensures |r| == n && forall x :: x in r <==> lo <= x < lo + n
  {
    if n == 0 then {} else Range(lo, n - 1) + {lo + n - 1}
  }

  function Cells(g: ExtractedGame): set<nat> {
    Range(g.saveOffset, g.saveSize)
  }

  function CellsOf(games: seq<ExtractedGame>, k: nat): set<nat>
    requires k <= |games|
  {
    if k == 0 then {} else CellsOf(games, k - 1) + Cells(games[k - 1])
  }

  /** The bytes of RAM that the saves of the first `k` games take. */
  function SaveBytes(games: seq<ExtractedGame>, k: nat): nat
    requires k <= |games|
  {
    if k == 0 then 0 else SaveBytes(games, k - 1) + games[k - 1].saveSize
  }

  lemma {:induction false} CellFrom(games: seq<ExtractedGame>, k: nat, x: nat) returns (i: nat)
    requires k <= |games| && x in CellsOf(games, k)
    ensures i < k && x in Cells(games[i])
  {
    hide Range;
    i := k - 1;
    if x !in Cells(games[k - 1]) {
      i := CellFrom(games, k - 1, x);
    }
  }

  /** Slots with cells of their own have as many cells as their saves have bytes, all of them inside the RAM. */
  lemma {:induction false} CellsCounted(games: seq<ExtractedGame>, k: nat)
    requires Isolated(games) && k <= |games|
    ensures |CellsOf(games, k)| == SaveBytes(games, k) && CellsOf(games, k) <= Range(0, SRAM_SIZE)
  {
    hide Range, Isolated;
    if k > 0 {
      CellsCounted(games, k - 1);
      var g := games[k - 1];
      forall x | x in CellsOf(games, k - 1)
        ensures x !in Cells(g)
      {
        var i := CellFrom(games, k - 1, x);
        if g.saveSize > 0 && games[i].saveSize > 0 {
          SlotsApart(games, i, k - 1);
        }
      }
      if g.saveSize > 0 {
        SlotsApart(games, k - 1, k - 1);
      }
      assert CellsOf(games, k - 1) !! Cells(g);
      assert Cells(g) <= Range(0, SRAM_SIZE);
    }
  }

  /** Isolated saves fit the RAM together. */
  lemma IsolatedFits(games: seq<ExtractedGame>)
    requires Isolated(games)
    ensures SaveBytes(games, |games|) <= SRAM_SIZE
  {
    hide Range;
    CellsCounted(games, |games|);
    Fewer(CellsOf(games, |games|), Range(0, SRAM_SIZE));
  }

  lemma Fewer(a: set<nat>, b: set<nat>)
    requires a <= b
    ensures |a| <= |b|
  {
    assert b == a + (b - a);
  }

  /** Games that have as much RAM as is reserved for them, and none that is a menu. */
  predicate FullReservations(games: seq<seq<byte>>)
    requires AllPlaceable(games)
  {
    forall i :: 0 <= i < |games| ==> RamKib(games[i]) >= 8 && !IsMenuRom(games[i])
  }

  lemma {:induction false} ReservedBytes(games: seq<seq<byte>>, k: nat)
    requires k <= |games| && AllPlaceable(games) && FullReservations(games)
    ensures |AllReturned(games, k)| == k && SaveBytes(AllReturned(games, k), k) == Reserved(games, k) * 1024
  {
    hide Fit, RamKib, IsMenuRom;
    if k > 0 {
      ReservedBytes(games, k - 1);
      var before, all := AllReturned(games, k - 1), AllReturned(games, k);
      assert all == before + [Returned(games, k - 1)];
      SaveBytesPrefix(before, all, k - 1);
    }
  }

  lemma {:induction false} SaveBytesPrefix(a: seq<ExtractedGame>, b: seq<ExtractedGame>, k: nat)
    requires a <= b && k <= |a|
    ensures SaveBytes(a, k) == SaveBytes(b, k)
  {
    if k > 0 {
      SaveBytesPrefix(a, b, k - 1);
    }
  }

  /**
   The slots of games with at least 8 KiB of RAM each are isolated if and only if the reservations
   fit the RAM.
   */
  lemma IsolatedExactly(menu: seq<byte>, games: seq<seq<byte>>, texts: seq<Label>, stamp: Stamp,
                        carried: Option<seq<byte>>)
    requires Stamped(games, texts, stamp, carried) && AssembleError(menu, games).None?
    requires AllPlaceable(games) && FullReservations(games)
    ensures var image := Assembled(menu, games, texts, stamp, carried);
            |image.sector| == MAP_SIZE
            && (Isolated(Extracted(image.rom, image.sector, 8)) <==> Reserved(games, |games|) <= SRAM_KIB)
  {
    hide Isolated, Extracted, AllReturned, Assembled;
    ExtractAssembled(menu, games, texts, stamp, carried);
    var slots := AllReturned(games, |games|);
    ReservedBytes(games, |games|);
    if Isolated(slots) {
      IsolatedFits(slots);
    }
    if Reserved(games, |games|) <= SRAM_KIB {
      SlotsIsolated(games, |games|);
    }
  }

  // --- Taking saves out and putting them back -------------------------------------------

  /** A game's save as cut out of the RAM image. */
  function SaveOf(sram: seq<byte>, g: ExtractedGame): seq<byte> {
    var end := Smaller(g.saveOffset + g.saveSize, |sram|);
    if g.saveOffset > end then [] else sram[g.saveOffset..end]
  }

  /** A save for one of the games, by position. */
  datatype Update = Update(game: nat, save: seq<byte>)

  /** Updates for games of the list, each as long as its slot. */
  predicate Sized(games: seq<ExtractedGame>, updates: seq<Update>) {
    forall u :: 0 <= u < |updates| ==>
      updates[u].game < |games| && |updates[u].save| == games[updates[u].game].saveSize > 0
  }

  function Updated(sram: seq<byte>, games: seq<ExtractedGame>, updates: seq<Update>, k: nat): (r: seq<byte>)
    requires k <= |updates| && Sized(games, updates)
    ensures |r| == |sram|
  {
    if k == 0 then sram
    else
      var u := updates[k - 1];
      var before := Updated(sram, games, updates, k - 1);
      if games[u.game].saveOffset + games[u.game].saveSize <= |sram|
      then Spliced(before, games[u.game].saveOffset, u.save) else before
  }

  /** Overwrite the slots of the updated games in the RAM image. */
  method SpliceSaves(sram: array<byte>, games: seq<ExtractedGame>, updates: seq<Update>)
    requires Sized(games, updates)
    modifies sram
    ensures sram[..] == Updated(old(sram[..]), games, updates, |updates|)
  {
    for k := 0 to |updates|
      invariant sram[..] == Updated(old(sram[..]), games, updates, k)
    {
      var u := updates[k];
      var off := games[u.game].saveOffset;
      var end := off + games[u.game].saveSize;
      if end <= sram.Length {
        ghost var before := sram[..];
        for i := 0 to |u.save|
          invariant sram[..] == Spliced(before, off, u.save[..i])
        {
          SpliceOne(before, off, u.save, i);
          sram[off + i] := u.save[i];
        }
        assert u.save[..|u.save|] == u.save;
      }
    }
  }

  lemma SpliceOne(base: seq<byte>, at: nat, data: seq<byte>, i: nat)
    requires i < |data| && at + |data| <= |base|
    ensures Spliced(base, at, data[..i + 1]) == Spliced(base, at, data[..i])[at + i := data[i]]
    ensures Spliced(base, at, []) == base
  {
  }

  /** The save game `i` should have afterwards: the last one given for it, else the one it had. */
  function LastSave(updates: seq<Update>, k: nat, i: nat, had: seq<byte>): seq<byte>
    requires k <= |updates|
  {
    if k == 0 then had
    else if updates[k - 1].game == i then updates[k - 1].save
    else LastSave(updates, k - 1, i, had)
  }

  /** Putting back any saves gives each updated game its save and leaves every other game's as it was. */
  lemma {:induction false} SavesKeptApart(sram: seq<byte>, games: seq<ExtractedGame>, updates: seq<Update>, k: nat,
                                          i: nat)
    requires |sram| == SRAM_SIZE && Isolated(games) && Sized(games, updates) && k <= |updates|
    requires i < |games| && games[i].saveSize > 0
    ensures SaveOf(Updated(sram, games, updates, k), games[i]) == LastSave(updates, k, i, SaveOf(sram, games[i]))
  {
    hide Isolated, SaveOf, Sized;
    if k > 0 {
      SavesKeptApart(sram, games, updates, k - 1, i);
      var u := updates[k - 1];
      UpdateSized(games, updates, k - 1);
      SlotsApart(games, i, u.game);
      SaveAfter(Updated(sram, games, updates, k - 1), games[i], games[u.game], u.game == i, u.save);
    }
  }

  lemma UpdateSized(games: seq<ExtractedGame>, updates: seq<Update>, k: nat)
    requires Sized(games, updates) && k < |updates|
    ensures updates[k].game < |games| && |updates[k].save| == games[updates[k].game].saveSize > 0
  {
  }

  lemma SlotsApart(games: seq<ExtractedGame>, i: nat, j: nat)
    requires Isolated(games) && i < |games| && j < |games| && games[i].saveSize > 0 && games[j].saveSize > 0
    ensures Inside(games[i]) && Inside(games[j]) && (i == j || Apart(games[i], games[j]))
  {
    if j < i {
      assert Apart(games[j], games[i]);
    }
  }

  /** One splice: the save of its own slot, and no other. */
  lemma SaveAfter(sram: seq<byte>, g: ExtractedGame, h: ExtractedGame, same: bool, save: seq<byte>)
    requires |sram| == SRAM_SIZE && Inside(g) && Inside(h) && |save| == h.saveSize
    requires if same then g == h else Apart(g, h)
    ensures SaveOf(Spliced(sram, h.saveOffset, save), g) == if same then save else SaveOf(sram, g)
  {
  }

  /** Cells of no updated slot keep their contents. */
  lemma {:induction false} RestKept(sram: seq<byte>, games: seq<ExtractedGame>, updates: seq<Update>, k: nat, j: nat)
    requires Sized(games, updates) && k <= |updates| && j < |sram|
    requires forall u :: 0 <= u < k ==>
      var g := games[updates[u].game]; !(g.saveOffset <= j < g.saveOffset + g.saveSize)
    ensures Updated(sram, games, updates, k)[j] == sram[j]
  {
    if k > 0 {
      RestKept(sram, games, updates, k - 1, j);
    }
  }

  // --- Over budget ----------------------------------------------------------------------

  /** The smallest ROM that can be placed, with the given RAM size byte. */
  function TinyGame(ram: byte): (g: seq<byte>)
    ensures Placeable(g) && g[0x147] == 0 && g[0x149] == ram
  {
    Filled(0x150, 0)[0x149 := ram]
  }

  /**
   Nothing stops the reservations from passing 128 KiB: after a game with all of the RAM, the next
   slot wraps to the start, and updating its save damages the first game's.
   */
  lemma OverBudgetCollides()
    ensures var games := [TinyGame(0x04), TinyGame(0x02)];
            && AllPlaceable(games) && Reserved(games, 2) > SRAM_KIB
            && var slots := [Returned(games, 0), Returned(games, 1)];
               && !Isolated(slots)
               && var update := [Update(1, Filled(0x2000, 0x01))];
                  && Sized(slots, update)
                  && SaveOf(Updated(Filled(SRAM_SIZE, 0), slots, update, 1), slots[0])
                     != SaveOf(Filled(SRAM_SIZE, 0), slots[0])
  {
    hide Fit, TinyGame;
    var games := [TinyGame(0x04), TinyGame(0x02)];
    assert Reserved(games, 0) == 0 && Reserved(games, 1) == 128 && Reserved(games, 2) == 136;
    var slots := [Returned(games, 0), Returned(games, 1)];
    assert slots[0].saveOffset == 0 && slots[0].saveSize == SRAM_SIZE;
    assert slots[1].saveOffset == 0 && slots[1].saveSize == 0x2000;
    assert !Apart(slots[0], slots[1]);
    var update := [Update(1, Filled(0x2000, 0x01))];
    var after := Updated(Filled(SRAM_SIZE, 0), slots, update, 1);
    assert Updated(Filled(SRAM_SIZE, 0), slots, update, 0) == Filled(SRAM_SIZE, 0);
    assert after == Spliced(Filled(SRAM_SIZE, 0), 0, Filled(0x2000, 0x01));
    assert SaveOf(after, slots[0])[0] == 0x01;
    assert SaveOf(Filled(SRAM_SIZE, 0), slots[0])[0] == 0x00;
  }
}
