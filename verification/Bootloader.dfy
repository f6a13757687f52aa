/** Flash programming in the LUFA DFU bootloader (BootloaderDFU.c): the Memory Program command, the DNLOAD loop that
    fills, commits and erases page after page, and the UPLOAD loop that reads back. These carry the DFU_DNLOAD and
    DFU_UPLOAD requests, sections 6.1.1 and 6.2.1 of the USB DFU 1.1 class specification.

    Flash is modelled the way the part behaves: erasing a page sets its words to 0xFFFF, committing a page can only
    clear bits of it, and committing empties the page buffer. It has no address bits above its flash, so higher
    addresses wrap around (`Cell`), and page operations ignore the lowest bit of a byte address. Addresses are word
    addresses except where noted. The sizes are those of the AT90USB1287 the makefile selects.
 */
module Bootloader {
  import opened Machine

  const PAGE := 128
  const FLASH_WORDS := 65536
  const ERASED: bv16 := 0xFFFF

  type Flash = f: seq<bv16> | |f| == FLASH_WORDS witness seq(FLASH_WORDS, _ => ERASED)
  type Buffer = b: seq<bv16> | |b| == PAGE witness seq(PAGE, _ => ERASED)

  // ----- the part

  function Page(addr: nat): nat {
    addr / PAGE
  }

  /** Where an address lies in flash. */
  function Cell(addr: nat): (a: nat)
    ensures a < FLASH_WORDS && (addr < FLASH_WORDS ==> a == addr)
  {
    addr % FLASH_WORDS
  }

  /** `boot_page_erase`. */
  function Erase(f: Flash, addr: nat): (r: Flash)
    requires addr < FLASH_WORDS
    ensures forall i :: 0 <= i < FLASH_WORDS ==> r[i] == if Page(i) == Page(addr) then ERASED else f[i]
  {
    seq(FLASH_WORDS, i requires 0 <= i < FLASH_WORDS => if Page(i) == Page(addr) then ERASED else f[i])
  }

  /** `boot_page_write`: programming can only clear bits. */
  function Commit(f: Flash, addr: nat, b: Buffer): (r: Flash)
    requires addr < FLASH_WORDS
    ensures forall i :: 0 <= i < FLASH_WORDS ==>
        r[i] == if Page(i) == Page(addr) then f[i] & b[i % PAGE] else f[i]
  {
    seq(FLASH_WORDS, i requires 0 <= i < FLASH_WORDS =>
      if Page(i) == Page(addr) then f[i] & b[i % PAGE] else f[i])
  }

  function Blank(): (b: Buffer)
    ensures forall i :: 0 <= i < PAGE ==> b[i] == ERASED
  {
    seq(PAGE, _ => ERASED)
  }

  /** The buffer after filling `ws` from `addr` on: the part only looks at the address within the page. */
  function Filled(addr: nat, ws: seq<bv16>): (b: Buffer)
    requires |ws| <= PAGE
    ensures forall i :: 0 <= i < PAGE ==>
        b[i] == if (i - addr) % PAGE < |ws| then ws[(i - addr) % PAGE] else ERASED
  {
    seq(PAGE, i requires 0 <= i < PAGE => if (i - addr) % PAGE < |ws| then ws[(i - addr) % PAGE] else ERASED)
  }

  // ----- what a download does

  function Min(a: int, b: int): int {
    if a <= b then a else b
  }

  /** The DNLOAD loop on flash whose first page is already erased: commit up to a page of words, and if more remain,
      erase the page of the next address and go on. */
  function Program(f: Flash, addr: nat, ws: seq<bv16>): Flash
    decreases |ws|
  {
    if ws == [] then f
    else
      var n := Min(PAGE, |ws|);
      var g := Commit(f, Cell(addr), Filled(addr, ws[..n]));
      if n == |ws| then g else Program(Erase(g, Cell(addr + n)), addr + n, ws[n..])
  }

  /** The command's erase of the first page, then the loop. */
  function Download(f: Flash, addr: nat, ws: seq<bv16>): Flash {
    Program(Erase(f, Cell(addr)), addr, ws)
  }

  // ----- when a download is right

  /** Every received word is where it belongs. */
  predicate Holds(f: Flash, addr: nat, ws: seq<bv16>)
    requires addr + |ws| <= FLASH_WORDS
  {
    forall i :: addr <= i < addr + |ws| ==> f[i] == ws[i - addr]
  }

  /** The intended result: the received words in place, the rest of their pages erased, every other page as it was. */
  predicate Image(f: Flash, g: Flash, addr: nat, ws: seq<bv16>)
    requires 0 < |ws| && addr + |ws| <= FLASH_WORDS
  {
    && Holds(g, addr, ws)
    && forall i :: 0 <= i < FLASH_WORDS && !(addr <= i < addr + |ws|) ==>
         g[i] == if Page(addr) <= Page(i) <= Page(addr + |ws| - 1) then ERASED else f[i]
  }

  predicate PageErased(f: Flash, addr: nat) {
    forall i :: 0 <= i < FLASH_WORDS && Page(i) == Page(addr) ==> f[i] == ERASED
  }

  /** Page-aligned, or within one page. */
  predicate Fits(addr: nat, n: nat) {
    addr % PAGE == 0 || addr % PAGE + n <= PAGE
  }

  lemma AllOnes(w: bv16)
    ensures ERASED & w == w && w & ERASED == w
  {
  }

  /** Where a buffer position lies, for words that stay within a page. */
  lemma PageArithmetic(addr: nat, i: nat, n: nat)
    requires 0 < n && addr % PAGE + n <= PAGE
    ensures addr <= i < addr + n ==> Page(i) == Page(addr) && (i % PAGE - addr) % PAGE == i - addr
    ensures Page(i) == Page(addr) && !(addr <= i < addr + n) ==> (i % PAGE - addr) % PAGE >= n
    ensures Page(addr + n - 1) == Page(addr)
  {
    var q, r := addr / PAGE, addr % PAGE;
    var q', r' := i / PAGE, i % PAGE;
    assert addr == PAGE * q + r && i == PAGE * q' + r';
    assert (r' - addr) % PAGE == (r' - r) % PAGE;
  }

  /** Committing words that stay within an erased page stores exactly them. */
  lemma CommitStores(f: Flash, addr: nat, ws: seq<bv16>)
    requires 0 < |ws| <= PAGE && addr % PAGE + |ws| <= PAGE && addr + |ws| <= FLASH_WORDS
    requires PageErased(f, addr)
    ensures Image(f, Commit(f, addr, Filled(addr, ws)), addr, ws)
  {
    var b := Filled(addr, ws);
    var g := Commit(f, addr, b);
    PageArithmetic(addr, addr, |ws|);
    forall i | 0 <= i < FLASH_WORDS
      ensures g[i] == if addr <= i < addr + |ws| then ws[i - addr] else f[i]
    {
      PageArithmetic(addr, i, |ws|);
      AllOnes(b[i % PAGE]);
    }
  }

  /** A full page and what follows it. */
  lemma NextPage(addr: nat, i: nat)
    requires addr % PAGE == 0
    ensures (addr + PAGE) % PAGE == 0 && Page(addr + PAGE) == Page(addr) + 1
    ensures Page(i) == Page(addr) <==> addr <= i < addr + PAGE
    ensures Page(i) > Page(addr) <==> i >= addr + PAGE
  {
  }

  /** Putting the image of the first page and the image of the rest together. */
  lemma ImageJoins(f: Flash, g: Flash, h: Flash, r: Flash, addr: nat, ws: seq<bv16>)
    requires PAGE < |ws| && addr + |ws| <= FLASH_WORDS && addr % PAGE == 0
    requires Image(f, g, addr, ws[..PAGE]) && h == Erase(g, addr + PAGE)
    requires Image(h, r, addr + PAGE, ws[PAGE..])
    ensures Image(f, r, addr, ws)
  {
    var last := addr + |ws| - 1;
    forall i | 0 <= i < FLASH_WORDS
      ensures r[i] == if addr <= i < addr + |ws| then ws[i - addr]
                      else if Page(addr) <= Page(i) <= Page(last) then ERASED else f[i]
    {
      NextPage(addr, i);
      NextPage(addr, addr + PAGE - 1);
      if addr <= i < addr + PAGE {
        assert g[i] == ws[..PAGE][i - addr];
      } else if addr + PAGE <= i <= last {
        assert r[i] == ws[PAGE..][i - addr - PAGE];
      }
    }
  }

  lemma FitsPageByPage(addr: nat, n: nat)
    requires Fits(addr, n)
    ensures n <= PAGE ==> addr % PAGE + n <= PAGE
    ensures n > PAGE ==> addr % PAGE == 0 && Fits(addr + PAGE, n - PAGE)
  {
  }

  lemma {:induction false} ProgramStores(f: Flash, addr: nat, ws: seq<bv16>)
    requires 0 < |ws| && addr + |ws| <= FLASH_WORDS && Fits(addr, |ws|)
    requires PageErased(f, addr)
    ensures Image(f, Program(f, addr, ws), addr, ws)
    decreases |ws|
  {
    hide Filled, Commit, Erase, Image, PageErased, Page, Program, LoopOps, Fits, Cell;
    OneChunk(f, addr, ws);
    FitsPageByPage(addr, |ws|);
    if |ws| <= PAGE {
      CommitStores(f, addr, ws);
    } else {
      CommitStores(f, addr, ws[..PAGE]);
      var g := Commit(f, addr, Filled(addr, ws[..PAGE]));
      var h := Erase(g, addr + PAGE);
      ErasedPage(g, addr + PAGE);
      ProgramStores(h, addr + PAGE, ws[PAGE..]);
      ImageJoins(f, g, h, Program(h, addr + PAGE, ws[PAGE..]), addr, ws);
    }
  }

  lemma ErasedPage(f: Flash, addr: nat)
    requires addr < FLASH_WORDS
    ensures PageErased(Erase(f, addr), addr)
  {
  }

  /** A download that fits leaves exactly the image. */
  lemma DownloadStores(f: Flash, addr: nat, ws: seq<bv16>)
    requires 0 < |ws| && addr + |ws| <= FLASH_WORDS && Fits(addr, |ws|)
    ensures Image(f, Download(f, addr, ws), addr, ws)
  {
    hide Program;
    ErasedPage(f, addr);
    ProgramStores(Erase(f, addr), addr, ws);
    var last := addr + |ws| - 1;
    assert Page(addr) <= Page(last);
  }

  // ----- and when it is not

  predicate Blanks(ws: seq<bv16>) {
    forall i :: 0 <= i < |ws| ==> ws[i] == ERASED
  }

  lemma BlanksSplit(ws: seq<bv16>)
    requires Blanks(ws)
    ensures |ws| > PAGE ==> Blanks(ws[..PAGE]) && Blanks(ws[PAGE..])
  {
  }

  lemma CommitBlank(f: Flash, a: nat, addr: nat, ws: seq<bv16>, p: nat)
    requires a < FLASH_WORDS && p < FLASH_WORDS && f[p] == ERASED && |ws| <= PAGE && Blanks(ws)
    ensures Commit(f, a, Filled(addr, ws))[p] == ERASED
  {
    hide Page;
    AllOnes(ERASED);
  }

  /** Words that clear no bits leave an erased word erased. */
  lemma {:induction false} BlankWordsKeep(f: Flash, addr: nat, ws: seq<bv16>, p: nat)
    requires p < FLASH_WORDS && f[p] == ERASED && Blanks(ws)
    ensures Program(f, addr, ws)[p] == ERASED
    decreases |ws|
  {
    if ws == [] {
      NoWords(f, addr);
    } else {
      hide Program, Commit, Filled, LoopOps, Page, Cell, Erase, Blanks;
      OneChunk(f, addr, ws);
      BlanksSplit(ws);
      if |ws| <= PAGE {
        CommitBlank(f, Cell(addr), addr, ws, p);
      } else {
        CommitBlank(f, Cell(addr), addr, ws[..PAGE], p);
        var g := Commit(f, Cell(addr), Filled(addr, ws[..PAGE]));
        var h := Erase(g, Cell(addr + PAGE));
        assert h[p] == ERASED;
        BlankWordsKeep(h, addr + PAGE, ws[PAGE..], p);
      }
    }
  }

  /** Words whose only cleared word belongs at the start of the second page. */
  function OneZero(n: nat, at: nat): (ws: seq<bv16>)
    ensures |ws| == n
    ensures forall i :: 0 <= i < n ==> ws[i] == if i == at then 0 else ERASED
  {
    seq(n, i => if i == at then 0 else ERASED)
  }

  /** The first page's commit never reaches the next page, and the later ones have only blank words left for it. */
  lemma NeverProgrammed(f: Flash, addr: nat, ws: seq<bv16>, p: nat)
    requires 0 < |ws| && addr + |ws| <= FLASH_WORDS && addr <= p < addr + |ws|
    requires Page(p) != Page(addr) && f[p] == ERASED
    requires forall i :: PAGE <= i < |ws| ==> ws[i] == ERASED
    ensures Download(f, addr, ws)[p] == ERASED
  {
    hide Program, Filled, Page;
    var e := Erase(f, addr);
    OneChunk(e, addr, ws);
    if |ws| > PAGE {
      var g := Commit(e, addr, Filled(addr, ws[..PAGE]));
      BlankWordsKeep(Erase(g, addr + PAGE), addr + PAGE, ws[PAGE..], p);
    }
  }

  /** From a start inside a page, a word meant for the next page is committed to this one. */
  lemma MisplacedWord(addr: nat, n: nat)
    requires addr + n <= FLASH_WORDS && !Fits(addr, n)
    ensures var f: Flash := seq(FLASH_WORDS, _ => ERASED);
            !Holds(Download(f, addr, OneZero(n, PAGE - addr % PAGE)), addr, OneZero(n, PAGE - addr % PAGE))
  {
    hide Download, OneZero;
    var d := PAGE - addr % PAGE;
    var ws := OneZero(n, d);
    NextPageStart(addr);
    NeverProgrammed(seq(FLASH_WORDS, _ => ERASED), addr, ws, addr + d);
    assert ws[addr + d - addr] == 0;
  }

  lemma NextPageStart(addr: nat)
    ensures Page(addr + (PAGE - addr % PAGE)) == Page(addr) + 1
  {
  }

  ghost predicate AlwaysRight(addr: nat, n: nat)
    requires addr + n <= FLASH_WORDS && addr < FLASH_WORDS
  {
    forall f: Flash, ws: seq<bv16> :: |ws| == n ==> Holds(Download(f, addr, ws), addr, ws)
  }

  /** Downloads of n words to an address are right for all contents if and only if they fit. */
  lemma DownloadExact(addr: nat, n: nat)
    requires 0 < n && addr + n <= FLASH_WORDS
    ensures AlwaysRight(addr, n) <==> Fits(addr, n)
  {
    hide Download, Holds, Image;
    if Fits(addr, n) {
      forall f: Flash, ws: seq<bv16> | |ws| == n
        ensures Holds(Download(f, addr, ws), addr, ws)
      {
        DownloadStores(f, addr, ws);
        ImageHolds(f, Download(f, addr, ws), addr, ws);
      }
    } else {
      MisplacedWord(addr, n);
    }
  }

  lemma ImageHolds(f: Flash, g: Flash, addr: nat, ws: seq<bv16>)
    requires 0 < |ws| && addr + |ws| <= FLASH_WORDS && Image(f, g, addr, ws)
    ensures Holds(g, addr, ws)
  {
  }

  // ----- page operations

  datatype PageOp = Erased(page: nat) | Committed(page: nat)

  /** The page operations of the DNLOAD loop. */
  function LoopOps(addr: nat, n: nat): seq<PageOp>
    decreases n
  {
    if n == 0 then []
    else if n <= PAGE then [Committed(Page(Cell(addr)))]
    else [Committed(Page(Cell(addr))), Erased(Page(Cell(addr + PAGE)))] + LoopOps(addr + PAGE, n - PAGE)
  }

  function PagesFor(n: nat): nat {
    (n + PAGE - 1) / PAGE
  }

  lemma PagesLess(n: nat)
    ensures 0 < n <= PAGE ==> PagesFor(n) == 1
    ensures n > PAGE ==> PagesFor(n) == PagesFor(n - PAGE) + 1
  {
  }

  /** Each of `m` pages from `p` on erased once and then committed once, in order. */
  function PageByPage(p: nat, m: nat): seq<PageOp>
    decreases m
  {
    if m == 0 then [] else [Erased(p), Committed(p)] + PageByPage(p + 1, m - 1)
  }

  /** Command and loop together erase each page of an aligned range once and then commit it once. */
  lemma {:induction false} EraseThenCommit(addr: nat, n: nat)
    requires 0 < n && addr % PAGE == 0 && addr + n <= FLASH_WORDS
    ensures [Erased(Page(addr))] + LoopOps(addr, n) == PageByPage(Page(addr), PagesFor(n))
    decreases n
  {
    PagesLess(n);
    NextPage(addr, addr);
    hide Page, PagesFor, Cell;
    if n <= PAGE {
      assert PageByPage(Page(addr) + 1, 0) == [];
    } else {
      EraseThenCommit(addr + PAGE, n - PAGE);
      var rest := [Erased(Page(addr + PAGE))] + LoopOps(addr + PAGE, n - PAGE);
      assert [Erased(Page(addr))] + LoopOps(addr, n) == [Erased(Page(addr)), Committed(Page(addr))] + rest;
    }
  }

  // ----- the code

  function BigEndian(hi: Byte, lo: Byte): Short {
    var h: int := hi;
    256 * h + lo
  }

  /** The 16-bit address has the given high and low byte. */
  lemma AddressBytes(hi: Byte, lo: Byte)
    ensures BigEndian(hi, lo) / 256 == hi && BigEndian(hi, lo) % 256 == lo
  {
  }

  /** Words asked for by a pair of 16-bit byte addresses; the byte count is reduced to 16 bits. */
  function WordsIn(start: Short, end: Short): nat {
    (end - start + 1) % 65536 / 2
  }

  /** The count is the length of the range exactly for even lengths short of 64 KB; a full 64 KB counts as none. */
  lemma WordsInExact(start: Short, end: Short)
    requires start <= end
    ensures 2 * WordsIn(start, end) == end - start + 1 <==> (end - start) % 2 == 1 && end - start != 65535
    ensures end - start == 65535 ==> WordsIn(start, end) == 0
  {
  }

  datatype State = Idle | DownloadIdle | UploadIdle | Error

  /** First byte of the boot section. */
  const BOOT_START := 0x1F000

  function ByteAt(f: Flash, addr: nat): bv16
    requires addr < BOOT_START
  {
    if addr % 2 == 0 then f[addr / 2] & 0xFF else f[addr / 2] >> 8
  }

  /** The low byte of a word comes first. */
  lemma BytesOfWord(f: Flash, a: nat)
    requires 2 * a + 1 < BOOT_START
    ensures f[a] == ByteAt(f, 2 * a) | (ByteAt(f, 2 * a + 1) << 8) && ByteAt(f, 2 * a) <= 0xFF
  {
    assert 2 * a / 2 == a && (2 * a + 1) / 2 == a;
    SplitWord(f[a]);
  }

  lemma SplitWord(w: bv16)
    ensures w == (w & 0xFF) | ((w >> 8) << 8) && w & 0xFF <= 0xFF
  {
  }

  predicate BlankBelow(f: Flash, n: nat) {
    n <= BOOT_START && forall a :: 0 <= a < n ==> ByteAt(f, a) == 0xFF
  }

  class Dfu {
    const flash: array<bv16>
    const buffer: array<bv16>
    var state: State
    var startAddr: Short
    var endAddr: Short
    var flash64KBPage: Byte
    ghost var ops: seq<PageOp>

    /** Between requests the page buffer is empty. */
    ghost predicate Valid()
      reads this, buffer
    {
      flash.Length == FLASH_WORDS && buffer.Length == PAGE && flash != buffer && buffer[..] == Blank()
    }

    ghost predicate Shape()
      reads this
    {
      flash.Length == FLASH_WORDS && buffer.Length == PAGE && flash != buffer
    }

    constructor ()
      ensures Valid() && fresh(flash) && fresh(buffer) && state == Idle && flash64KBPage == 0 && ops == []
    {
      flash := new bv16[FLASH_WORDS](_ => ERASED);
      buffer := new bv16[PAGE](_ => ERASED);
      state, startAddr, endAddr, flash64KBPage := Idle, 0, 0, 0;
      ops := [];
      new;
      assert buffer[..] == Blank();
    }

    /** Word address of the current start address within the selected 64 KB. */
    function WordAddr(): nat
      reads this
    {
      Cell((startAddr + 65536 * flash64KBPage) / 2)
    }

    /** Words the 16-bit address pair asks for. */
    function WordCount(): nat
      reads this
    {
      WordsIn(startAddr, endAddr)
    }

    method PageErase(address: nat)
      requires Shape()
      modifies flash, this`ops
      ensures flash[..] == Erase(old(flash[..]), Cell(address))
      ensures ops == old(ops) + [Erased(Page(Cell(address)))]
    {
      var addr := Cell(address);
      forall i | 0 <= i < FLASH_WORDS && Page(i) == Page(addr) {
        flash[i] := ERASED;
      }
      ops := ops + [Erased(Page(addr))];
    }

    method PageFill(addr: nat, w: bv16)
      requires Shape()
      modifies buffer
      ensures buffer[..] == old(buffer[..])[addr % PAGE := w]
    {
      buffer[addr % PAGE] := w;
    }

    method PageWrite(address: nat)
      requires Shape()
      modifies flash, buffer, this`ops
      ensures flash[..] == Commit(old(flash[..]), Cell(address), old(buffer[..]))
      ensures buffer[..] == Blank()
      ensures ops == old(ops) + [Committed(Page(Cell(address)))]
    {
      var addr := Cell(address);
      forall i | 0 <= i < FLASH_WORDS && Page(i) == Page(addr) {
        flash[i] := flash[i] & buffer[i % PAGE];
      }
      assert flash[..] == Commit(old(flash[..]), addr, old(buffer[..]));
      forall i | 0 <= i < PAGE {
        buffer[i] := ERASED;
      }
      ops := ops + [Committed(Page(addr))];
    }

    /** `LoadStartEndAddresses`: big-endian in the command, after its first byte. */
    method LoadStartEndAddresses(data: seq<Byte>)
      requires |data| == 5
      modifies this`startAddr, this`endAddr
      ensures startAddr / 256 == data[1] && startAddr % 256 == data[2]
      ensures endAddr / 256 == data[3] && endAddr % 256 == data[4]
      ensures startAddr == BigEndian(data[1], data[2]) && endAddr == BigEndian(data[3], data[4])
    {
      startAddr := BigEndian(data[1], data[2]);
      endAddr := BigEndian(data[3], data[4]);
      AddressBytes(data[1], data[2]);
      AddressBytes(data[3], data[4]);
    }

    /** `ProcessMemProgCommand`: also erases the first page when flash is the target. */
    method ProcessMemProgCommand(data: seq<Byte>)
      requires Valid() && |data| == 5
      modifies this`startAddr, this`endAddr, this`state, this`ops, flash
      ensures Valid()
      ensures data[0] <= 1 ==>
          && state == DownloadIdle
          && startAddr == BigEndian(data[1], data[2]) && endAddr == BigEndian(data[3], data[4])
      ensures data[0] == 0 ==>
          && flash[..] == Erase(old(flash[..]), WordAddr())
          && ops == old(ops) + [Erased(Page(WordAddr()))]
      ensures data[0] != 0 ==> flash[..] == old(flash[..]) && ops == old(ops)
      ensures data[0] > 1 ==> state == old(state) && startAddr == old(startAddr) && endAddr == old(endAddr)
    {
      hide Cell, Page, Erase, Blank, BigEndian;
      if data[0] == 0 || data[0] == 1 {
        LoadStartEndAddresses(data);
        if data[0] == 0 {
          PageErase(WordAddr());
        }
        state := DownloadIdle;
      }
    }

    /** `ProcessMemReadCommand`: arms an upload of flash (0) or EEPROM (2), or checks (1) that the application
        section is blank and otherwise reports its first byte that is not. */
    method ProcessMemReadCommand(data: seq<Byte>)
      requires Valid() && |data| == 5
      modifies this`startAddr, this`endAddr, this`state, this`flash64KBPage
      ensures data[0] == 0 || data[0] == 2 ==>
          && state == UploadIdle && flash64KBPage == old(flash64KBPage)
          && startAddr == BigEndian(data[1], data[2]) && endAddr == BigEndian(data[3], data[4])
      ensures data[0] == 1 ==>
          if BlankBelow(flash[..], BOOT_START) then state == old(state) && startAddr == old(startAddr)
          else
            var first := startAddr + 65536 * flash64KBPage;
            && state == Error && first < BOOT_START && BlankBelow(flash[..], first) && ByteAt(flash[..], first) != 0xFF
      ensures data[0] > 2 ==> state == old(state) && startAddr == old(startAddr) && endAddr == old(endAddr)
    {
      if data[0] == 0 || data[0] == 2 {
        LoadStartEndAddresses(data);
        state := UploadIdle;
      } else if data[0] == 1 {
        var addr := 0;
        while addr < BOOT_START
          invariant 0 <= addr <= BOOT_START && BlankBelow(flash[..], addr)
          invariant state == old(state) && startAddr == old(startAddr)
        {
          var word := flash[addr / 2];
          assert flash[..][addr / 2] == word;
          var value := if addr % 2 == 0 then word & 0xFF else word >> 8;
          assert ByteAt(flash[..], addr) == value;
          if value != 0xFF {
            flash64KBPage := addr / 65536;
            startAddr := addr % 65536;
            state := Error;
            return;
          }
          addr := addr + 1;
        }
      }
    }

    /** End of a page in the DNLOAD loop: commit it, and if words remain erase the page of the next address. */
    method FinishPage(pageStartAddr: nat, more: bool, next: nat,
                      ghost rest: seq<bv16>, ghost target: Flash, ghost allOps: seq<PageOp>)
      requires Shape() && 0 < |rest|
      requires more == (|rest| > PAGE) && (more ==> next == pageStartAddr + PAGE)
      requires buffer[..] == Filled(pageStartAddr, rest[..Min(PAGE, |rest|)])
      requires Program(flash[..], pageStartAddr, rest) == target
      requires ops + LoopOps(pageStartAddr, |rest|) == allOps
      modifies flash, buffer, this`ops
      ensures buffer[..] == Blank()
      ensures !more ==> flash[..] == target && ops == allOps
      ensures more ==> Program(flash[..], next, rest[PAGE..]) == target && ops + LoopOps(next, |rest| - PAGE) == allOps
    {
      hide Filled, Commit, Erase, Program, LoopOps, Page, Blank, Cell;
      OneChunk(flash[..], pageStartAddr, rest);
      PageWrite(pageStartAddr);
      if more {
        PageErase(next);
      }
    }

    /** The flash branch of DNLOAD. `dataSize` is what remains of the request after its command, `words` the host's data
        stream. Nothing happens outside of a download, and a request without data ends it. */
    method DownloadFlash(dataSize: nat, words: seq<bv16>)
      requires Valid() && WordCount() == |words|
      modifies flash, buffer, this`startAddr, this`state, this`ops
      ensures Valid()
      ensures old(state) == DownloadIdle && dataSize != 0 ==>
          && state == DownloadIdle && startAddr == endAddr
          && flash[..] == Program(old(flash[..]), old(WordAddr()), words)
          && ops == old(ops) + LoopOps(old(WordAddr()), |words|)
      ensures old(state) != DownloadIdle || dataSize == 0 ==>
          && startAddr == old(startAddr) && flash[..] == old(flash[..]) && ops == old(ops)
          && state == if old(state) == DownloadIdle then Idle else old(state)
    {
      if state == DownloadIdle {
        if dataSize == 0 {
          state := Idle;
        } else {
          WriteWords(words);
        }
      }
    }

    /** The loop of the download. */
    method WriteWords(words: seq<bv16>)
      requires Valid() && WordCount() == |words|
      modifies flash, buffer, this`startAddr, this`ops
      ensures Valid() && startAddr == endAddr
      ensures flash[..] == Program(old(flash[..]), old(WordAddr()), words)
      ensures ops == old(ops) + LoopOps(old(WordAddr()), |words|)
    {
      hide Filled, Commit, Erase, Program, LoopOps, Page, Blank, Cell;
      var wordsRemaining: Short := WordsIn(startAddr, endAddr);
      var base := WordAddr();
      var addr := base;
      var pageStartAddr := base;
      var wordsInPage: Byte := 0;
      ghost var target: Flash := Program(flash[..], base, words);
      ghost var allOps := ops + LoopOps(base, |words|);
      // the words from the current page's first one on
      ghost var rest := words;
      NothingFilled(base);
      NoWords(flash[..], base);
      while wordsRemaining != 0
        invariant Shape() && startAddr == old(startAddr) && endAddr == old(endAddr)
        invariant 0 <= wordsRemaining <= |words| && addr == base + |words| - wordsRemaining
        invariant wordsRemaining == 0 ==> buffer[..] == Blank() && flash[..] == target && ops == allOps
        invariant wordsRemaining != 0 ==>
            && base <= pageStartAddr && addr == pageStartAddr + wordsInPage && wordsInPage < PAGE
            && rest == words[pageStartAddr - base..]
            && buffer[..] == Filled(pageStartAddr, rest[..wordsInPage])
            && Program(flash[..], pageStartAddr, rest) == target
            && ops + LoopOps(pageStartAddr, |rest|) == allOps
        decreases wordsRemaining
      {
        wordsRemaining := wordsRemaining - 1;
        FillOne(pageStartAddr, rest, wordsInPage);
        PageFill(addr, words[addr - base]);
        wordsInPage := wordsInPage + 1;
        addr := addr + 1;
        if wordsInPage == PAGE || wordsRemaining == 0 {
          FinishPage(pageStartAddr, wordsRemaining != 0, addr, rest, target, allOps);
          if wordsRemaining != 0 {
            rest := rest[PAGE..];
            pageStartAddr := addr;
            wordsInPage := 0;
            NothingFilled(addr);
            assert rest[..0] == [];
          }
        }
      }
      startAddr := endAddr;
    }

    /** The flash branch of UPLOAD. */
    method UploadFlash() returns (words: seq<bv16>)
      requires Valid()
      modifies this`startAddr, this`state
      ensures |words| == old(WordCount())
      ensures forall i: nat :: i < |words| ==> words[i] == flash[Cell(old(WordAddr()) + i)]
      ensures startAddr == endAddr && state == Idle
    {
      var wordsRemaining: Short := WordsIn(startAddr, endAddr);
      var addr := WordAddr();
      ghost var base := addr;
      words := [];
      while wordsRemaining != 0
        invariant addr == base + |words| && wordsRemaining + |words| == WordCount()
        invariant startAddr == old(startAddr) && endAddr == old(endAddr) && flash64KBPage == old(flash64KBPage)
        invariant forall i: nat :: i < |words| ==> words[i] == flash[Cell(base + i)]
        decreases wordsRemaining
      {
        wordsRemaining := wordsRemaining - 1;
        words := words + [flash[Cell(addr)]];
        addr := addr + 1;
      }
      startAddr := endAddr;
      state := Idle;
    }
  }

  lemma NoWords(f: Flash, addr: nat)
    ensures Program(f, addr, []) == f
    ensures LoopOps(addr, 0) == []
  {
  }

  /** One turn of the outer pattern of the loop: fill and commit a chunk, and erase the next page if words remain. */
  lemma OneChunk(f: Flash, addr: nat, ws: seq<bv16>)
    requires 0 < |ws|
    ensures |ws| <= PAGE ==>
        && ws[..|ws|] == ws
        && Program(f, addr, ws) == Commit(f, Cell(addr), Filled(addr, ws))
        && LoopOps(addr, |ws|) == [Committed(Page(Cell(addr)))]
    ensures |ws| > PAGE ==>
        && Program(f, addr, ws)
           == Program(Erase(Commit(f, Cell(addr), Filled(addr, ws[..PAGE])), Cell(addr + PAGE)), addr + PAGE,
                      ws[PAGE..])
        && LoopOps(addr, |ws|)
           == [Committed(Page(Cell(addr)))] + ([Erased(Page(Cell(addr + PAGE)))] + LoopOps(addr + PAGE, |ws| - PAGE))
  {
    hide Cell, Page, Filled, Commit, Erase;
  }

  lemma NothingFilled(addr: nat)
    ensures Filled(addr, []) == Blank()
  {
  }

  /** Filling the next word extends the filled prefix. */
  lemma FillOne(addr: nat, ws: seq<bv16>, n: nat)
    requires n < PAGE && n < |ws|
    ensures Filled(addr, ws[..n])[(addr + n) % PAGE := ws[n]] == Filled(addr, ws[..n + 1])
  {
    var a, b := Filled(addr, ws[..n])[(addr + n) % PAGE := ws[n]], Filled(addr, ws[..n + 1]);
    forall i | 0 <= i < PAGE
      ensures a[i] == b[i]
    {
      FillPosition(addr, i, n);
    }
  }

  lemma FillPosition(addr: nat, i: nat, n: nat)
    requires i < PAGE && n < PAGE
    ensures (i - addr) % PAGE == n <==> i == (addr + n) % PAGE
  {
    var q, r := addr / PAGE, addr % PAGE;
    assert addr == PAGE * q + r;
    assert (i - addr) % PAGE == (i - r) % PAGE;
    assert (addr + n) % PAGE == (r + n) % PAGE;
  }

  /** The flash address of a command's range in the selected 64 KB: 128 words for each step of its high byte, one for
      each two of the low. */
  function RangeStart(data: seq<Byte>, page: Byte): nat
    requires |data| == 5
  {
    var (hi, lo) := (data[1] as int, data[2] as int);
    Cell(32768 * page + 128 * hi + lo / 2)
  }

  function RangeWords(data: seq<Byte>): nat
    requires |data| == 5
  {
    WordsIn(BigEndian(data[1], data[2]), BigEndian(data[3], data[4]))
  }

  lemma RangeStartIs(data: seq<Byte>, page: Byte)
    requires |data| == 5
    ensures RangeStart(data, page) == Cell((BigEndian(data[1], data[2]) + 65536 * page) / 2)
  {
    Halve(data[1], data[2], page);
    hide Cell;
  }

  lemma Halve(hi: int, lo: int, page: int)
    ensures (256 * hi + lo + 65536 * page) / 2 == 32768 * page + 128 * hi + lo / 2
  {
  }

  /** A page-aligned range of n words. */
  predicate AlignedRange(data: seq<Byte>, n: nat)
    requires |data| == 5
  {
    && data[2] == 0 && 0 < 2 * n < 65536
    && BigEndian(data[3], data[4]) == BigEndian(data[1], 0) + 2 * n - 1
  }

  lemma RangeFits(data: seq<Byte>, page: Byte, n: nat)
    requires |data| == 5 && AlignedRange(data, n)
    ensures var addr := RangeStart(data, page); addr % PAGE == 0 && addr + n <= FLASH_WORDS
    ensures RangeWords(data) == n
  {
    hide WordsIn, Cell;
    RangeLength(BigEndian(data[1], data[2]), BigEndian(data[3], data[4]), n);
    HalfFlash(data[1], page, n);
  }

  lemma RangeLength(start: Short, end: Short, n: nat)
    requires 0 < 2 * n < 65536 && end == start + 2 * n - 1
    ensures WordsIn(start, end) == n
  {
    assert end - start + 1 == 2 * n;
  }

  /** Each 64 KB page is one half of the flash. */
  lemma HalfFlash(hi: int, page: nat, n: nat)
    requires 0 <= hi < 256 && 128 * hi + n <= 32768
    ensures var addr := Cell(32768 * page + 128 * hi); addr % PAGE == 0 && addr + n <= FLASH_WORDS
  {
    var q, odd := page / 2, page % 2;
    WrapsTo(32768 * page + 128 * hi, q, 128 * (hi + 256 * odd));
  }

  lemma WrapsTo(a: nat, q: nat, b: nat)
    requires a == FLASH_WORDS * q + b && b < FLASH_WORDS
    ensures Cell(a) == b
  {
  }

  method ProgramRange(dfu: Dfu, data: seq<Byte>, words: seq<bv16>)
    requires dfu.Valid() && |data| == 5 && data[0] == 0 && AlignedRange(data, |words|)
    modifies dfu`startAddr, dfu`endAddr, dfu`state, dfu`ops, dfu.flash, dfu.buffer
    ensures dfu.Valid()
    ensures var addr := RangeStart(data, dfu.flash64KBPage);
            && addr + |words| <= FLASH_WORDS
            && Image(old(dfu.flash[..]), dfu.flash[..], addr, words)
            && dfu.ops == old(dfu.ops) + PageByPage(Page(addr), PagesFor(|words|))
  {
    hide Program, Image, Erase, LoopOps, Page, BigEndian, Blank, PageByPage, PagesFor, WordsIn, Cell, RangeStart;
    RangeFits(data, dfu.flash64KBPage, |words|);
    RangeStartIs(data, dfu.flash64KBPage);
    dfu.ProcessMemProgCommand(data);
    ghost var addr := dfu.WordAddr();
    dfu.DownloadFlash(2 * |words|, words);
    EraseThenCommit(addr, |words|);
    DownloadStores(old(dfu.flash[..]), addr, words);
  }

  method ReadRange(dfu: Dfu, data: seq<Byte>) returns (back: seq<bv16>)
    requires dfu.Valid() && |data| == 5 && data[0] == 0
    modifies dfu`startAddr, dfu`endAddr, dfu`state, dfu`flash64KBPage
    ensures |back| == RangeWords(data)
    ensures forall i: nat :: i < |back| ==>
        back[i] == dfu.flash[Cell(RangeStart(data, old(dfu.flash64KBPage)) + i)]
  {
    hide BigEndian, WordsIn, BlankBelow, ByteAt, Cell, RangeStart;
    RangeStartIs(data, dfu.flash64KBPage);
    dfu.ProcessMemReadCommand(data);
    back := dfu.UploadFlash();
  }

  /** Program a page-aligned range, then read it back: the host gets exactly the words it sent, and each page was erased
      once before it was committed. */
  method ProgramAndReadBack(dfu: Dfu, data: seq<Byte>, words: seq<bv16>) returns (back: seq<bv16>)
    requires dfu.Valid() && |data| == 5 && data[0] == 0 && AlignedRange(data, |words|)
    modifies dfu, dfu.flash, dfu.buffer
    ensures dfu.Valid() && back == words
    ensures var addr := RangeStart(data, old(dfu.flash64KBPage));
            && addr % PAGE == 0 && addr + |words| <= FLASH_WORDS
            && Image(old(dfu.flash[..]), dfu.flash[..], addr, words)
            && dfu.ops == old(dfu.ops) + PageByPage(Page(addr), PagesFor(|words|))
  {
    hide Image, Page, Blank, PageByPage, PagesFor, RangeWords, RangeStart, Cell;
    ghost var addr := RangeStart(data, dfu.flash64KBPage);
    RangeFits(data, dfu.flash64KBPage, |words|);
    ProgramRange(dfu, data, words);
    ImageHolds(old(dfu.flash[..]), dfu.flash[..], addr, words);
    back := ReadRange(dfu, data);
    forall i: nat | i < |words|
      ensures back[i] == words[i]
    {
      assert dfu.flash[..][addr + i] == words[i];
    }
  }
}
