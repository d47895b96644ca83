/**
 What the mapper hears during each step of a GB Memory flow. Every function takes what has been heard
 before and adds the register writes of one step, so that a flow's whole script is their composition.
 */
module GbMemorySequences {
  import opened Bytes
  import opened SimGbMemory

  type Script = seq<Event>

  function AfterBus(h: Script, addr: nat, value: byte): Script {
    h + [Wrote(addr, value)]
  }

  /** A mapper command without arguments: stage, then execute. */
  function AfterCommand(h: Script, cmd: byte): Script {
    h + [Wrote(0x0120, cmd), Wrote(0x013F, 0xA5)]
  }

  /** The wake-up command with its two magic arguments. */
  function AfterWake(h: Script): Script {
    h + [Wrote(0x0120, 0x09), Wrote(0x0121, 0xAA), Wrote(0x0122, 0x55), Wrote(0x013F, 0xA5)]
  }

  /** Write protection armed, with its two arguments, then disabled. */
  function AfterProtection(h: Script): Script {
    AfterCommand(h + [Wrote(0x0120, 0x0A), Wrote(0x0125, 0x62), Wrote(0x0126, 0x04), Wrote(0x013F, 0xA5)], 0x02)
  }

  /** A write to the flash bus through the mapper. */
  function AfterFlash(h: Script, addr: nat, value: byte): Script
    requires addr < 0x1_0000
  {
    h + [Wrote(0x0120, 0x0F), Wrote(0x0125, (addr / 0x100) as byte), Wrote(0x0126, (addr % 0x100) as byte),
         Wrote(0x0127, value), Wrote(0x013F, 0xA5)]
  }

  /** A flash command behind its two unlock cycles. */
  function AfterPrefix(h: Script, cmd: byte): Script {
    AfterFlash(AfterFlash(AfterFlash(h, 0x5555, 0xAA), 0x2AAA, 0x55), 0x5555, cmd)
  }

  // --- Flows ------------------------------------------------------------------------------

  /** Awake, bank registers on, all of the megabyte visible. */
  function AfterMapFull(h: Script): Script {
    AfterCommand(AfterCommand(AfterWake(h), 0x11), 0x04)
  }

  /** The same, the flash in reading mode, the mapper asleep again. */
  function AfterEnable(h: Script): Script {
    AfterCommand(AfterFlash(AfterMapFull(h), 0x0000, 0xF0), 0x08)
  }

  /** A stale erase suspended, sector 0 unprotected. */
  function AfterUnprotect(h: Script): Script {
    AfterFlash(AfterFlash(AfterFlash(AfterPrefix(AfterFlash(h, 0x0000, 0xB0), 0x60), 0x5555, 0xAA), 0x2AAA, 0x55),
               0x0000, 0x40)
  }

  /** Ready for writing: bank 1, awake, write protection off, sector 0 unprotected. */
  function AfterUnlock(h: Script): Script {
    AfterUnprotect(AfterBus(AfterProtection(AfterCommand(AfterWake(AfterBus(h, 0x2100, 0x01)), 0x11)), 0x2100, 0x01))
  }

  function AfterIdCheck(h: Script): Script {
    AfterFlash(AfterPrefix(h, 0x90), 0x0000, 0xF0)
  }

  function AfterErase(h: Script): Script {
    AfterCommand(AfterFlash(AfterPrefix(AfterPrefix(h, 0x80), 0x10), 0x0000, 0xF0), 0x04)
  }

  /** The firmware's engine for this cartridge: command set 0, method 3, no command slots. */
  function AfterConfigure(h: Script): Script {
    h + [Command([0xA7, 0x00, 0x03, 0x01] + Filled(36, 0))]
  }

  /** The first `k` banks selected, in order. */
  function AfterBanks(h: Script, k: nat): Script
    requires k <= 64
  {
    if k == 0 then h else AfterBus(AfterBanks(h, k - 1), 0x2100, (k - 1) as byte)
  }

  function AfterMapErase(h: Script): Script {
    AfterPrefix(AfterPrefix(AfterUnlock(h), 0x60), 0x04)
  }

  function AfterMapMode(h: Script): Script {
    AfterCommand(AfterCommand(AfterBus(AfterPrefix(AfterPrefix(h, 0x60), 0xE0), 0x2100, 0x01), 0x10), 0x08)
  }

  function AfterPageSetup(h: Script): Script {
    AfterBus(AfterPrefix(AfterBus(AfterCommand(AfterWake(h), 0x11), 0x2100, 0x01), 0xA0), 0x2100, 0x01)
  }

  /** The hidden sector erased, its page set up, streamed to the sleeping mapper and committed. */
  function AfterMapWrite(h: Script): Script {
    AfterBus(AfterCommand(AfterCommand(AfterPageSetup(AfterMapMode(AfterMapErase(h))), 0x10), 0x08), 0x007F, 0xFF)
  }

  function AfterReset(h: Script): Script {
    AfterCommand(AfterCommand(AfterFlash(AfterBus(h, 0x2100, 0x01), 0x4080, 0xF0), 0x04), 0x08)
  }

  /** The hidden sector on the bus: its command twice, then bank 0. */
  function AfterExpose(h: Script): Script {
    AfterBus(AfterPrefix(AfterPrefix(AfterBus(AfterCommand(AfterWake(h), 0x11), 0x2100, 0x01), 0x77), 0x77),
             0x2100, 0x00)
  }

  /** DMG mode entered: mode, 5 V, power if it was off, mapper reset. */
  predicate Entered(h: Script, now: Script) {
    var front := h + [Command([0xA3]), Command([0xA5])];
    now == front + [Command([0xB4])] || now == (front + [Command([0xF2])]) + [Command([0xB4])]
  }

  /** From mode entry to blank flash: the ID is checked before anything is erased, and the flash unlocked twice. */
  function AfterPrepare(h: Script): Script {
    AfterErase(AfterUnlock(AfterIdCheck(AfterUnlock(AfterEnable(h)))))
  }

  /** A whole write up to verification. */
  function AfterWrite(h: Script): Script {
    AfterReset(AfterMapWrite(AfterBanks(AfterConfigure(AfterPrepare(h)), 64)))
  }

  // --- Written out ------------------------------------------------------------------------

  /** Waking up, word for word. */
  lemma EnableScript(h: Script)
    ensures AfterEnable(h) == h + [
      Wrote(0x0120, 0x09), Wrote(0x0121, 0xAA), Wrote(0x0122, 0x55), Wrote(0x013F, 0xA5),
      Wrote(0x0120, 0x11), Wrote(0x013F, 0xA5),
      Wrote(0x0120, 0x04), Wrote(0x013F, 0xA5),
      Wrote(0x0120, 0x0F), Wrote(0x0125, 0x00), Wrote(0x0126, 0x00), Wrote(0x0127, 0xF0), Wrote(0x013F, 0xA5),
      Wrote(0x0120, 0x08), Wrote(0x013F, 0xA5)]
  {
  }

  /** An unlock prefix and its command, word for word. */
  lemma PrefixScript(h: Script, cmd: byte)
    ensures AfterPrefix(h, cmd) == h + [
      Wrote(0x0120, 0x0F), Wrote(0x0125, 0x55), Wrote(0x0126, 0x55), Wrote(0x0127, 0xAA), Wrote(0x013F, 0xA5),
      Wrote(0x0120, 0x0F), Wrote(0x0125, 0x2A), Wrote(0x0126, 0xAA), Wrote(0x0127, 0x55), Wrote(0x013F, 0xA5),
      Wrote(0x0120, 0x0F), Wrote(0x0125, 0x55), Wrote(0x0126, 0x55), Wrote(0x0127, cmd), Wrote(0x013F, 0xA5)]
  {
  }

  // --- Nothing is erased early ------------------------------------------------------------

  /** The writes of a script, from what came after `before`. */
  predicate NoEraseSince(before: Script, now: Script) {
    before <= now && forall i :: |before| <= i < |now| ==> now[i] != Wrote(0x0127, 0x10)
  }

  lemma NoEraseOn(a: Script, b: Script, c: Script)
    requires NoEraseSince(a, b) && NoEraseSince(b, c)
    ensures NoEraseSince(a, c)
  {
  }

  /** Until the ID has been checked the chip-erase argument is never staged. */
  lemma ErasedOnlyChecked(h: Script)
    ensures NoEraseSince(h, AfterIdCheck(AfterUnlock(AfterEnable(h))))
  {
    EnableQuiet(h);
    UnlockQuiet(AfterEnable(h));
    CheckQuiet(AfterUnlock(AfterEnable(h)));
    NoEraseOn(h, AfterEnable(h), AfterUnlock(AfterEnable(h)));
    NoEraseOn(h, AfterUnlock(AfterEnable(h)), AfterIdCheck(AfterUnlock(AfterEnable(h))));
  }

  lemma EnableQuiet(h: Script)
    ensures NoEraseSince(h, AfterEnable(h))
  {
    EnableScript(h);
  }

  lemma CheckQuiet(h: Script)
    ensures NoEraseSince(h, AfterIdCheck(h))
  {
    PrefixScript(h, 0x90);
  }

  lemma UnlockQuiet(h: Script)
    ensures NoEraseSince(h, AfterUnlock(h))
  {
    var a := AfterProtection(AfterCommand(AfterWake(AfterBus(h, 0x2100, 0x01)), 0x11));
    var b := AfterBus(a, 0x2100, 0x01);
    assert NoEraseSince(h, b);
    UnprotectQuiet(b);
    NoEraseOn(h, b, AfterUnprotect(b));
  }

  lemma UnprotectQuiet(h: Script)
    ensures NoEraseSince(h, AfterUnprotect(h))
  {
    var a := AfterFlash(h, 0x0000, 0xB0);
    var b := AfterPrefix(a, 0x60);
    PrefixScript(a, 0x60);
    assert NoEraseSince(h, a) && NoEraseSince(a, b);
    NoEraseOn(h, a, b);
    assert NoEraseSince(b, AfterUnprotect(h));
    NoEraseOn(h, b, AfterUnprotect(h));
  }
}
