/** nvm_flash_erase_and_write_buffer (nvm.c), over a model of the flash page buffer.

    Programming flash can only clear bits, so a page written without an erase keeps the bitwise "and" of
    its old and new contents; a page that is erased first takes the buffer as it is. The page buffer is taken
    to behave like the EEPROM's: loading a word "ands" it into what its location already holds, and every
    write empties the buffer. The driver asks for the buffer to be flushed before it is loaded
    (nvm.h:624-629), which the routine does not do. */
module NvmFlash {
  import opened Bits
  import opened Nvm

  const FLASH_SIZE := 0x2_0000       // ATxmega128A4U
  const FLASH_PAGE_SIZE := 256

  datatype Word = Word(lsb: byte, msb: byte)

  const BLANK := Word(0xFF, 0xFF)

  function WordByte(w: Word, i: nat): byte {
    if i % 2 == 0 then w.lsb else w.msb
  }

  /** The bits set in both. */
  function Both(a: byte, b: byte): byte {
    a & b
  }

  function BothWords(v: Word, w: Word): Word {
    Word(Both(v.lsb, w.lsb), Both(v.msb, w.msb))
  }

  /** Word `k` of the page buffer; a location never loaded is blank. */
  function WordAt(buffer: map<nat, Word>, k: nat): Word {
    if k in buffer then buffer[k] else BLANK
  }

  /** The byte the page buffer holds for address `i`. */
  function BufferByte(buffer: map<nat, Word>, i: nat): byte {
    var pos := i % FLASH_PAGE_SIZE;
    WordByte(WordAt(buffer, pos / 2), pos)
  }

  function PageWritten(mem: seq<byte>, page: nat, buffer: map<nat, Word>, erase: bool): (r: seq<byte>)
    ensures |r| == |mem|
  {
    seq(|mem|, i requires 0 <= i < |mem| =>
      if i / FLASH_PAGE_SIZE != page then mem[i]
      else if erase then BufferByte(buffer, i) else Both(mem[i], BufferByte(buffer, i)))
  }

  /** `data` combined by "and" into the bytes from `address` on. */
  function AndOver(mem: seq<byte>, address: nat, data: seq<byte>): (r: seq<byte>)
    requires address + |data| <= |mem|
    ensures |r| == |mem|
  {
    seq(|mem|, i requires 0 <= i < |mem| =>
      if address <= i < address + |data| then Both(mem[i], data[i - address]) else mem[i])
  }

  /** The data themselves with blank checking, their "and" without. */
  function Written(mem: seq<byte>, address: nat, data: seq<byte>, blankCheck: bool): (r: seq<byte>)
    requires address + |data| <= |mem|
    ensures |r| == |mem|
  {
    if blankCheck then Overwrite(mem, address, data) else AndOver(mem, address, data)
  }

  /** What the routine leaves behind after `done` data bytes. Leftovers in the page buffer end up in its first
      page, as if they had been programmed over it. */
  function Stored(mem: seq<byte>, left: map<nat, Word>, address: nat, data: seq<byte>, done: nat, blankCheck: bool)
    : (r: seq<byte>)
    requires address + |data| <= |mem| && done <= |data|
    ensures |r| == |mem|
  {
    if done == 0 then mem
    else PageWritten(Written(mem, address, data[..done], blankCheck), address / FLASH_PAGE_SIZE, left, false)
  }

  predicate PageIsBlank(mem: seq<byte>, page: nat) {
    forall i :: 0 <= i < |mem| && i / FLASH_PAGE_SIZE == page ==> mem[i] == 0xFF
  }

  /** The byte the routine loads for address `x`. */
  function Loaded(mem: seq<byte>, address: nat, data: seq<byte>, blankCheck: bool, x: nat): byte
    requires x < |mem|
  {
    if address <= x < address + |data| then data[x - address] else if blankCheck then mem[x] else 0xFF
  }

  class Flash {
    var cells: seq<byte>
    var pageBuffer: map<nat, Word>
    var erased: set<nat>            // pages erased so far

    ghost predicate Valid()
      reads this
    {
      |cells| == FLASH_SIZE
    }

    constructor (cells: seq<byte>)
      requires |cells| == FLASH_SIZE
      ensures Valid() && this.cells == cells && pageBuffer == map[] && erased == {}
    {
      this.cells := cells;
      pageBuffer := map[];
      erased := {};
    }

    method ReadWord(address: nat) returns (w: Word)
      requires Valid() && address + 1 < FLASH_SIZE
      ensures w == Word(cells[address], cells[address + 1])
    {
      w := Word(cells[address], cells[address + 1]);
    }

    method LoadWordToBuffer(address: nat, w: Word)
      modifies this`pageBuffer
      ensures var k := address % FLASH_PAGE_SIZE / 2;
        pageBuffer == old(pageBuffer)[k := BothWords(WordAt(old(pageBuffer), k), w)]
    {
      var k := address % FLASH_PAGE_SIZE / 2;
      pageBuffer := pageBuffer[k := BothWords(WordAt(pageBuffer, k), w)];
    }

    method SplitWritePage(address: nat)
      requires Valid()
      modifies this`cells, this`pageBuffer
      ensures Valid() && pageBuffer == map[]
      ensures cells == PageWritten(old(cells), address / FLASH_PAGE_SIZE, old(pageBuffer), false)
    {
      cells := PageWritten(cells, address / FLASH_PAGE_SIZE, pageBuffer, false);
      pageBuffer := map[];
    }

    method AtomicWritePage(address: nat)
      requires Valid()
      modifies this
      ensures Valid() && pageBuffer == map[] && erased == old(erased) + {address / FLASH_PAGE_SIZE}
      ensures cells == PageWritten(old(cells), address / FLASH_PAGE_SIZE, old(pageBuffer), true)
    {
      cells := PageWritten(cells, address / FLASH_PAGE_SIZE, pageBuffer, true);
      erased := erased + {address / FLASH_PAGE_SIZE};
      pageBuffer := map[];
    }

    /** The word for `pageAddress`: data bytes whose turn has come, over the old contents or 0xFF. */
    method ComposeWord(pageAddress: nat, address: nat, data: seq<byte>, start: nat, done: nat, blankCheck: bool)
      returns (wValue: Word, done': nat, dirty: bool)
      requires Valid() && pageAddress + 1 < FLASH_SIZE
      requires address + |data| <= FLASH_SIZE && done <= |data|
      requires address <= start && (start == address || start <= pageAddress)
      requires address + done == Cursor(start, address + |data|, pageAddress)
      ensures done' <= |data| && address + done' == Cursor(start, address + |data|, pageAddress + 2)
      ensures dirty <==> blankCheck && (cells[pageAddress] != 0xFF || cells[pageAddress + 1] != 0xFF)
      ensures wValue == Word(Loaded(cells, address, data, blankCheck, pageAddress),
                             Loaded(cells, address, data, blankCheck, pageAddress + 1))
    {
      wValue, done', dirty := BLANK, done, false;
      if blankCheck {
        wValue := ReadWord(pageAddress);
        if wValue != BLANK {
          dirty := true;
        }
      }
      if done' < |data| {
        if address + done' == pageAddress {
          wValue := wValue.(lsb := data[done']);
          done' := done' + 1;
        }
      }
      if done' < |data| {
        if address + done' == pageAddress + 1 {
          wValue := wValue.(msb := data[done']);
          done' := done' + 1;
        }
      }
    }

    /** One turn of the inner loop. */
    method LoadNextWord(base: nat, pagePos: nat, address: nat, data: seq<byte>, start: nat, done: nat,
        blankCheck: bool, ghost left: map<nat, Word>)
      returns (done': nat, dirty: bool)
      requires Valid() && base % FLASH_PAGE_SIZE == 0 && pagePos % 2 == 0 && pagePos < FLASH_PAGE_SIZE
      requires base + FLASH_PAGE_SIZE <= FLASH_SIZE && address + |data| <= FLASH_SIZE && done <= |data|
      requires address <= start && (start == address || start <= base)
      requires address + done == Cursor(start, address + |data|, base + pagePos)
      requires Filled(pageBuffer, left, cells, address, data, blankCheck, base, pagePos)
      modifies this`pageBuffer
      ensures done' <= |data| && address + done' == Cursor(start, address + |data|, base + pagePos + 2)
      ensures dirty <==> blankCheck && (cells[base + pagePos] != 0xFF || cells[base + pagePos + 1] != 0xFF)
      ensures Filled(pageBuffer, left, cells, address, data, blankCheck, base, pagePos + 2)
    {
      var wValue;
      wValue, done', dirty := ComposeWord(base + pagePos, address, data, start, done, blankCheck);
      PagePosition(base, pagePos);
      OneMoreWord(pageBuffer, left, cells, address, data, blankCheck, base, pagePos);
      LoadWordToBuffer(base + pagePos, wValue);
    }

    /** The inner loop: fill the page buffer for the page at `base`, taking the data bytes whose turn has
        come. `done` counts the data bytes taken before, `done'` those taken after. */
    method LoadPage(base: nat, address: nat, data: seq<byte>, done: nat, blankCheck: bool)
      returns (done': nat, flagErase: bool)
      requires Valid() && base % FLASH_PAGE_SIZE == 0 && base + FLASH_PAGE_SIZE <= FLASH_SIZE
      requires done < |data| && address + |data| <= FLASH_SIZE
      requires base <= address + done < base + FLASH_PAGE_SIZE && (done == 0 || address + done == base)
      modifies this`pageBuffer
      ensures done' <= |data| && address + done' == Cursor(address + done, address + |data|, base + FLASH_PAGE_SIZE)
      ensures BufferHolds(pageBuffer, old(pageBuffer), cells, address, data, blankCheck, base, base + FLASH_PAGE_SIZE)
      ensures flagErase <==> blankCheck && AnyProgrammed(cells, base, base + FLASH_PAGE_SIZE)
    {
      ghost var left := pageBuffer;
      var pagePos: nat, pageAddress: nat := 0, base;
      done', flagErase := done, false;
      while pagePos < FLASH_PAGE_SIZE
        invariant pageAddress == base + pagePos && pagePos <= FLASH_PAGE_SIZE && pagePos % 2 == 0
        invariant done' <= |data| && address + done' == Cursor(address + done, address + |data|, pageAddress)
        invariant Filled(pageBuffer, left, cells, address, data, blankCheck, base, pagePos)
        invariant flagErase <==> blankCheck && AnyProgrammed(cells, base, pageAddress)
      {
        TwoMoreBytes(cells, base, pageAddress);
        var dirty;
        done', dirty := LoadNextWord(base, pagePos, address, data, address + done, done', blankCheck, left);
        flagErase := flagErase || dirty;
        pagePos, pageAddress := pagePos + 2, pageAddress + 2;
      }
    }

    /** One turn of the outer loop: the page at `base`, after `done` of the data bytes. */
    method WriteNextPage(base: nat, address: nat, data: seq<byte>, done: nat, blankCheck: bool,
        ghost mem0: seq<byte>, ghost left: map<nat, Word>, ghost erased0: set<nat>)
      returns (done': nat)
      requires Valid() && |mem0| == FLASH_SIZE && pageBuffer == Remaining(left, done)
      requires base % FLASH_PAGE_SIZE == 0 && base + FLASH_PAGE_SIZE <= FLASH_SIZE
      requires done < |data| && address + |data| <= FLASH_SIZE
      requires base <= address + done < base + FLASH_PAGE_SIZE && (done == 0 || address + done == base)
      requires WrittenUpTo(mem0, left, erased0, cells, erased, address, data, done, blankCheck)
      modifies this
      ensures Valid() && pageBuffer == map[]
      ensures done < done' <= |data|
      ensures address + done' == Cursor(address + done, address + |data|, base + FLASH_PAGE_SIZE)
      ensures WrittenUpTo(mem0, left, erased0, cells, erased, address, data, done', blankCheck)
    {
      var flagErase;
      done', flagErase := LoadPage(base, address, data, done, blankCheck);
      PageStep(mem0, left, cells, address, data, done, done', base, blankCheck, pageBuffer, flagErase);
      PagesStep(mem0, left, cells, address, data, done, done', base, blankCheck, flagErase);
      if flagErase {
        AtomicWritePage(base);
      } else {
        SplitWritePage(base);
      }
    }

    /** nvm_flash_erase_and_write_buffer. */
    method EraseAndWriteBuffer(address: nat, data: seq<byte>, blankCheck: bool)
      requires Valid() && address + |data| <= FLASH_SIZE
      modifies this
      ensures Valid() && pageBuffer == Remaining(old(pageBuffer), |data|)
      ensures cells == Stored(old(cells), old(pageBuffer), address, data, |data|, blankCheck)
      ensures erased == old(erased) + PagesToErase(old(cells), address, address + |data|, blankCheck)
    {
      ghost var mem0, left, erased0 := cells, pageBuffer, erased;
      var pageAddress := address - address % FLASH_PAGE_SIZE;
      var done := 0;
      while done < |data|
        invariant Valid() && pageAddress % FLASH_PAGE_SIZE == 0 && done <= |data|
        invariant pageBuffer == Remaining(left, done)
        invariant done < |data| ==> pageAddress <= address + done < pageAddress + FLASH_PAGE_SIZE
        invariant done > 0 ==> address + done == pageAddress || done == |data|
        invariant WrittenUpTo(mem0, left, erased0, cells, erased, address, data, done, blankCheck)
      {
        PageFits(pageAddress, address + done);
        done := WriteNextPage(pageAddress, address, data, done, blankCheck, mem0, left, erased0);
        pageAddress := pageAddress + FLASH_PAGE_SIZE;
      }
    }
  }

  /** What is left in the page buffer after `done` bytes: the first write empties it. */
  function Remaining(left: map<nat, Word>, done: nat): map<nat, Word> {
    if done == 0 then left else map[]
  }

  lemma PageFits(base: nat, x: nat)
    requires base % FLASH_PAGE_SIZE == 0 && base <= x < FLASH_SIZE
    ensures base + FLASH_PAGE_SIZE <= FLASH_SIZE
  {
  }

  /** The memory and the erased pages once `done` data bytes have been dealt with. */
  ghost predicate WrittenUpTo(mem0: seq<byte>, left: map<nat, Word>, erased0: set<nat>, mem: seq<byte>,
      erased: set<nat>,
      address: nat, data: seq<byte>, done: nat, blankCheck: bool)
    requires address + |data| <= |mem0| && done <= |data|
  {
    && mem == Stored(mem0, left, address, data, done, blankCheck)
    && erased == erased0 + PagesToErase(mem0, address, address + done, blankCheck)
  }

  /** The first `pagePos` bytes of the page at `base` have been loaded over `left`, and nothing beyond. */
  ghost predicate Filled(buffer: map<nat, Word>, left: map<nat, Word>, mem: seq<byte>, address: nat, data: seq<byte>,
      blankCheck: bool, base: nat, pagePos: nat)
    requires base + pagePos <= |mem|
  {
    && (forall k: nat :: 2 * k >= pagePos ==> WordAt(buffer, k) == WordAt(left, k))
    && BufferHolds(buffer, left, mem, address, data, blankCheck, base, base + pagePos)
  }

  lemma TwoMoreBytes(mem: seq<byte>, lo: nat, x: nat)
    requires lo <= x && x + 2 <= |mem|
    ensures AnyProgrammed(mem, lo, x + 2) <==> AnyProgrammed(mem, lo, x) || mem[x] != 0xFF || mem[x + 1] != 0xFF
  {
  }

  /** The page buffer holds the right byte for every address in [lo, hi), over what was left in it. */
  ghost predicate BufferHolds(buffer: map<nat, Word>, left: map<nat, Word>, mem: seq<byte>, address: nat,
      data: seq<byte>, blankCheck: bool, lo: nat, hi: nat)
    requires hi <= |mem|
  {
    forall x: nat :: lo <= x < hi ==>
      BufferByte(buffer, x) == Both(Loaded(mem, address, data, blankCheck, x), BufferByte(left, x))
  }

  /** Some byte of [lo, hi) is not blank. */
  ghost predicate AnyProgrammed(mem: seq<byte>, lo: nat, hi: nat)
    requires hi <= |mem|
  {
    exists x :: lo <= x < hi && mem[x] != 0xFF
  }

  lemma OneMoreWord(buffer: map<nat, Word>, left: map<nat, Word>, mem: seq<byte>, address: nat, data: seq<byte>,
      blankCheck: bool, base: nat, pagePos: nat)
    requires base % FLASH_PAGE_SIZE == 0 && pagePos % 2 == 0 && pagePos < FLASH_PAGE_SIZE
    requires base + pagePos + 2 <= |mem|
    requires Filled(buffer, left, mem, address, data, blankCheck, base, pagePos)
    ensures var x, k := base + pagePos, pagePos / 2;
      var w := Word(Loaded(mem, address, data, blankCheck, x), Loaded(mem, address, data, blankCheck, x + 1));
      Filled(buffer[k := BothWords(WordAt(buffer, k), w)], left, mem, address, data, blankCheck, base, pagePos + 2)
  {
    var at, k := base + pagePos, pagePos / 2;
    var w := Word(Loaded(mem, address, data, blankCheck, at), Loaded(mem, address, data, blankCheck, at + 1));
    assert WordAt(buffer, k) == WordAt(left, k);
    forall x: nat | base <= x < at + 2
      ensures BufferByte(buffer[k := BothWords(WordAt(buffer, k), w)], x)
           == Both(Loaded(mem, address, data, blankCheck, x), BufferByte(left, x))
    {
      BufferByteAfter(buffer, base, pagePos, w, x);
      if x >= at {
        SameByte(buffer, left, base, x - base);
        BothCommutes(BufferByte(left, x), Loaded(mem, address, data, blankCheck, x));
      }
    }
  }

  lemma BothCommutes(a: byte, b: byte)
    ensures Both(a, b) == Both(b, a)
  {
  }

  lemma BothUnit(v: byte)
    ensures Both(0xFF, v) == v == Both(v, 0xFF)
  {
  }

  lemma BothAssociates(a: byte, b: byte, c: byte)
    ensures Both(a, Both(b, c)) == Both(Both(a, b), c)
  {
  }

  /** `g`, written or programmed over `m`, survives `b` exactly when it is there and `b` has all its bits. */
  lemma SparedEitherWay(w: byte, m: byte, g: byte, b: byte)
    requires w == g || w == Both(m, g)
    ensures Both(w, b) == g <==> w == g == Both(g, b)
  {
  }

  /** Word `k` of both buffers being the same, so is each byte of it. */
  lemma SameByte(buffer: map<nat, Word>, left: map<nat, Word>, base: nat, pos: nat)
    requires base % FLASH_PAGE_SIZE == 0 && pos < FLASH_PAGE_SIZE
    requires WordAt(buffer, pos / 2) == WordAt(left, pos / 2)
    ensures BufferByte(buffer, base + pos) == BufferByte(left, base + pos)
  {
    PagePosition(base, pos);
  }

  lemma BufferByteAfter(buffer: map<nat, Word>, base: nat, pagePos: nat, w: Word, x: nat)
    requires base % FLASH_PAGE_SIZE == 0 && pagePos % 2 == 0 && pagePos < FLASH_PAGE_SIZE
    requires base <= x < base + pagePos + 2
    ensures BufferByte(buffer[pagePos / 2 := BothWords(WordAt(buffer, pagePos / 2), w)], x)
         == if x < base + pagePos then BufferByte(buffer, x)
            else Both(BufferByte(buffer, x), if x == base + pagePos then w.lsb else w.msb)
  {
    var pos := x - base;
    PagePosition(base, pos);
    WordOf(pos, pagePos);
    AndedByte(WordAt(buffer, pagePos / 2), w, pos);
  }

  lemma AndedByte(v: Word, w: Word, pos: nat)
    ensures WordByte(BothWords(v, w), pos) == Both(WordByte(v, pos), WordByte(w, pos))
  {
  }

  lemma WordOf(pos: nat, pagePos: nat)
    requires pagePos % 2 == 0 && pos < pagePos + 2
    ensures pos / 2 == pagePos / 2 <==> pos >= pagePos
    ensures pos >= pagePos ==> pos % 2 == pos - pagePos
  {
  }

  lemma PagePosition(base: nat, pagePos: nat)
    requires base % FLASH_PAGE_SIZE == 0 && pagePos < FLASH_PAGE_SIZE
    ensures (base + pagePos) % FLASH_PAGE_SIZE == pagePos
  {
  }

  /** Where the next data byte goes once all addresses below `position` have been passed. */
  function Cursor(start: nat, end: nat, position: nat): nat {
    if position <= start then start else if position <= end then position else end
  }

  /** The pages that [start, end) reaches into and that are not blank. */
  function PagesToErase(mem: seq<byte>, start: nat, end: nat, blankCheck: bool): set<nat> {
    if !blankCheck then {}
    else set p: nat | p < FLASH_SIZE / FLASH_PAGE_SIZE && !PageIsBlank(mem, p) && Reaches(start, end, p)
  }

  predicate Reaches(start: nat, end: nat, page: nat) {
    start < end && start / FLASH_PAGE_SIZE <= page <= (end - 1) / FLASH_PAGE_SIZE
  }

  /** `mem0` with the first `done` data bytes written, about to take those up to `done'` in the page at `base`. */
  ghost predicate AtPage(mem0: seq<byte>, left: map<nat, Word>, mem: seq<byte>, address: nat, data: seq<byte>,
      done: nat, done': nat, base: nat, blankCheck: bool, erase: bool)
  {
    && |mem0| == FLASH_SIZE && address + |data| <= FLASH_SIZE && done < done' <= |data|
    && base % FLASH_PAGE_SIZE == 0 && base <= address + done < base + FLASH_PAGE_SIZE <= FLASH_SIZE
    && (done == 0 || address + done == base)
    && address + done' == Cursor(address + done, address + |data|, base + FLASH_PAGE_SIZE)
    && mem == Stored(mem0, left, address, data, done, blankCheck)
    && (erase <==> blankCheck && AnyProgrammed(mem, base, base + FLASH_PAGE_SIZE))
  }

  /** The page about to be written still has its original contents. */
  lemma PageUntouched(mem0: seq<byte>, left: map<nat, Word>, mem: seq<byte>, address: nat, data: seq<byte>,
      done: nat, done': nat, base: nat, blankCheck: bool, erase: bool)
    requires AtPage(mem0, left, mem, address, data, done, done', base, blankCheck, erase)
    ensures forall x: nat :: base <= x < base + FLASH_PAGE_SIZE ==> mem[x] == mem0[x]
    ensures forall x: nat {:trigger x / FLASH_PAGE_SIZE} ::
              x / FLASH_PAGE_SIZE == base / FLASH_PAGE_SIZE <==> base <= x < base + FLASH_PAGE_SIZE
    ensures address / FLASH_PAGE_SIZE == base / FLASH_PAGE_SIZE <==> done == 0
  {
    OnThePage(base, address);
    forall x: nat | base <= x < base + FLASH_PAGE_SIZE ensures mem[x] == mem0[x] {
      OnThePage(base, x);
    }
  }

  lemma OnThePage(base: nat, x: nat)
    requires base % FLASH_PAGE_SIZE == 0
    ensures x / FLASH_PAGE_SIZE == base / FLASH_PAGE_SIZE <==> base <= x < base + FLASH_PAGE_SIZE
  {
  }

  lemma PageStep(mem0: seq<byte>, left: map<nat, Word>, mem: seq<byte>, address: nat, data: seq<byte>,
      done: nat, done': nat, base: nat, blankCheck: bool, buffer: map<nat, Word>, erase: bool)
    requires AtPage(mem0, left, mem, address, data, done, done', base, blankCheck, erase)
    requires BufferHolds(buffer, Remaining(left, done), mem, address, data, blankCheck, base, base + FLASH_PAGE_SIZE)
    ensures PageWritten(mem, base / FLASH_PAGE_SIZE, buffer, erase)
         == Stored(mem0, left, address, data, done', blankCheck)
  {
    PageUntouched(mem0, left, mem, address, data, done, done', base, blankCheck, erase);
    var r := PageWritten(mem, base / FLASH_PAGE_SIZE, buffer, erase);
    var w := Stored(mem0, left, address, data, done', blankCheck);
    forall x: nat | x < |mem| ensures r[x] == w[x] {
      OnThePage(base, x);
      if base <= x < base + FLASH_PAGE_SIZE {
        OnPageStep(mem0, left, mem, address, data, done, done', base, blankCheck, buffer, erase, x);
      } else {
        OffPageStep(mem0, left, mem, address, data, done, done', base, blankCheck, erase, x);
      }
    }
  }

  /** A byte of the page. */
  lemma OnPageStep(mem0: seq<byte>, left: map<nat, Word>, mem: seq<byte>, address: nat, data: seq<byte>,
      done: nat, done': nat, base: nat, blankCheck: bool, buffer: map<nat, Word>, erase: bool, x: nat)
    requires AtPage(mem0, left, mem, address, data, done, done', base, blankCheck, erase)
    requires BufferHolds(buffer, Remaining(left, done), mem, address, data, blankCheck, base, base + FLASH_PAGE_SIZE)
    requires base <= x < base + FLASH_PAGE_SIZE && mem[x] == mem0[x]
    requires address / FLASH_PAGE_SIZE == base / FLASH_PAGE_SIZE <==> done == 0
    ensures PageWritten(mem, base / FLASH_PAGE_SIZE, buffer, erase)[x]
         == Stored(mem0, left, address, data, done', blankCheck)[x]
  {
    OnThePage(base, x);
    var v, l := Loaded(mem, address, data, blankCheck, x), BufferByte(Remaining(left, done), x);
    assert BufferByte(buffer, x) == Both(v, l);
    assert (erase ==> blankCheck) && (!erase && blankCheck ==> mem0[x] == 0xFF);
    WrittenOnThePage(mem0, mem, address, data, done, done', base, blankCheck, x);
    ThreeBytes(mem0[x], v, l);
  }

  /** A byte of another page. */
  lemma OffPageStep(mem0: seq<byte>, left: map<nat, Word>, mem: seq<byte>, address: nat, data: seq<byte>,
      done: nat, done': nat, base: nat, blankCheck: bool, erase: bool, x: nat)
    requires AtPage(mem0, left, mem, address, data, done, done', base, blankCheck, erase)
    requires x < |mem| && !(base <= x < base + FLASH_PAGE_SIZE)
    requires address / FLASH_PAGE_SIZE == base / FLASH_PAGE_SIZE <==> done == 0
    ensures mem[x] == Stored(mem0, left, address, data, done', blankCheck)[x]
  {
    OnThePage(base, x);
  }

  lemma ThreeBytes(m: byte, v: byte, l: byte)
    ensures Both(m, Both(v, l)) == Both(Both(m, v), l)
    ensures m == 0xFF ==> Both(m, Both(v, l)) == Both(v, l)
    ensures Both(v, 0xFF) == v && Both(Both(m, v), 0xFF) == Both(m, v)
  {
    BothAssociates(m, v, l);
    BothUnit(Both(v, l));
    BothUnit(v);
    BothUnit(Both(m, v));
  }

  /** On its page the data written combine with the old contents as the loaded bytes do. */
  lemma WrittenOnThePage(mem0: seq<byte>, mem: seq<byte>, address: nat, data: seq<byte>, done: nat, done': nat,
      base: nat, blankCheck: bool, x: nat)
    requires address + |data| <= |mem0| == |mem| && done <= done' <= |data|
    requires base <= address + done && (done == 0 || address + done == base)
    requires address + done' == Cursor(address + done, address + |data|, base + FLASH_PAGE_SIZE)
    requires base <= x < base + FLASH_PAGE_SIZE && x < |mem| && mem[x] == mem0[x]
    ensures var v := Loaded(mem, address, data, blankCheck, x);
      Written(mem0, address, data[..done'], blankCheck)[x] == if blankCheck then v else Both(mem0[x], v)
  {
    BothUnit(mem0[x]);
  }

  lemma PagesStep(mem0: seq<byte>, left: map<nat, Word>, mem: seq<byte>, address: nat, data: seq<byte>,
      done: nat, done': nat, base: nat, blankCheck: bool, erase: bool)
    requires AtPage(mem0, left, mem, address, data, done, done', base, blankCheck, erase)
    ensures PagesToErase(mem0, address, address + done', blankCheck)
         == PagesToErase(mem0, address, address + done, blankCheck) + (if erase then {base / FLASH_PAGE_SIZE} else {})
  {
    PageUntouched(mem0, left, mem, address, data, done, done', base, blankCheck, erase);
    var page := base / FLASH_PAGE_SIZE;
    assert erase <==> blankCheck && !PageIsBlank(mem0, page);
    var before, after := address + done, address + done';
    assert forall p: nat :: Reaches(address, after, p) <==> Reaches(address, before, p) || p == page;
  }

  /** Without blank checking the routine never erases, so it stores the data exactly when no target byte
      has a cleared bit that the data needs set. */
  lemma WithoutBlankCheck(mem: seq<byte>, address: nat, data: seq<byte>)
    requires address + |data| <= |mem|
    ensures Written(mem, address, data, false) == Overwrite(mem, address, data)
       <==> forall i :: 0 <= i < |data| ==> Both(mem[address + i], data[i]) == data[i]
  {
    var a, o := AndOver(mem, address, data), Overwrite(mem, address, data);
    forall i | 0 <= i < |data| ensures a[address + i] == Both(mem[address + i], data[i]) && o[address + i] == data[i] {
    }
    if forall i :: 0 <= i < |data| ==> Both(mem[address + i], data[i]) == data[i] {
      forall x | 0 <= x < |mem| ensures a[x] == o[x] {
        if address <= x < address + |data| {
          assert x == address + (x - address);
        }
      }
    }
  }

  /** The data end up stored, and nothing else changes, exactly when two things hold: with or without an erase
      no byte of the first page needs a bit that a leftover in the page buffer has cleared, and without
      blank checking no bit has to go from 0 to 1. */
  lemma FlashStoredExactlyWhen(mem: seq<byte>, left: map<nat, Word>, address: nat, data: seq<byte>, blankCheck: bool)
    requires address + |data| <= |mem| && data != []
    ensures Stored(mem, left, address, data, |data|, blankCheck) == Overwrite(mem, address, data)
       <==> && LeftoversSpare(left, Overwrite(mem, address, data), address / FLASH_PAGE_SIZE)
            && (!blankCheck ==> forall i :: 0 <= i < |data| ==> Both(mem[address + i], data[i]) == data[i])
  {
    var goal, r := Overwrite(mem, address, data), Stored(mem, left, address, data, |data|, blankCheck);
    var w := Written(mem, address, data, blankCheck);
    WithoutBlankCheck(mem, address, data);
    forall x: nat | x < |mem|
      ensures r[x] == goal[x] <==> w[x] == goal[x] && SpareAt(left, goal, address / FLASH_PAGE_SIZE, x)
    {
      StoredByteExactlyWhen(mem, left, address, data, blankCheck, x);
    }
    if r == goal {
      assert forall x: nat :: x < |mem| ==> r[x] == goal[x];
      assert w == goal;
    }
  }

  /** No byte of `page` in `goal` needs a bit that a leftover has cleared. */
  predicate LeftoversSpare(left: map<nat, Word>, goal: seq<byte>, page: nat) {
    forall x: nat :: x < |goal| ==> SpareAt(left, goal, page, x)
  }

  predicate SpareAt(left: map<nat, Word>, goal: seq<byte>, page: nat, x: nat)
    requires x < |goal|
  {
    x / FLASH_PAGE_SIZE == page ==> Both(goal[x], BufferByte(left, x)) == goal[x]
  }

  lemma StoredByte(mem: seq<byte>, left: map<nat, Word>, address: nat, data: seq<byte>, blankCheck: bool, x: nat)
    requires address + |data| <= |mem| && data != [] && x < |mem|
    ensures var w := Written(mem, address, data, blankCheck)[x];
      Stored(mem, left, address, data, |data|, blankCheck)[x]
        == if x / FLASH_PAGE_SIZE == address / FLASH_PAGE_SIZE then Both(w, BufferByte(left, x)) else w
  {
    assert data[..|data|] == data;
  }

  lemma Replaced(mem: seq<byte>, address: nat, data: seq<byte>, blankCheck: bool, x: nat)
    requires address + |data| <= |mem| && x < |mem|
    requires blankCheck || !(address <= x < address + |data|)
    ensures Written(mem, address, data, blankCheck)[x] == Overwrite(mem, address, data)[x]
  {
  }

  lemma ProgrammedOver(mem: seq<byte>, address: nat, data: seq<byte>, x: nat)
    requires address + |data| <= |mem| && address <= x < address + |data|
    ensures Written(mem, address, data, false)[x] == Both(mem[x], Overwrite(mem, address, data)[x])
  {
    assert Overwrite(mem, address, data)[x] == data[x - address];
    assert AndOver(mem, address, data)[x] == Both(mem[x], data[x - address]);
  }

  lemma StoredByteExactlyWhen(mem: seq<byte>, left: map<nat, Word>, address: nat, data: seq<byte>, blankCheck: bool,
      x: nat)
    requires address + |data| <= |mem| && data != [] && x < |mem|
    ensures var goal := Overwrite(mem, address, data);
      Stored(mem, left, address, data, |data|, blankCheck)[x] == goal[x]
      <==> Written(mem, address, data, blankCheck)[x] == goal[x] && SpareAt(left, goal, address / FLASH_PAGE_SIZE, x)
  {
    StoredByte(mem, left, address, data, blankCheck, x);
    var g, b := Overwrite(mem, address, data)[x], BufferByte(left, x);
    if blankCheck || !(address <= x < address + |data|) {
      Replaced(mem, address, data, blankCheck, x);
      SparedEitherWay(g, mem[x], g, b);
    } else {
      ProgrammedOver(mem, address, data, x);
      SparedEitherWay(Both(mem[x], g), mem[x], g, b);
    }
  }

  /** With an empty page buffer the routine with blank checking stores any data. */
  lemma StoredWithBlankCheck(mem: seq<byte>, address: nat, data: seq<byte>)
    requires address + |data| <= |mem|
    ensures Stored(mem, map[], address, data, |data|, true) == Overwrite(mem, address, data)
  {
    if data != [] {
      var goal := Overwrite(mem, address, data);
      forall x: nat | x < |mem| ensures SpareAt(map[], goal, address / FLASH_PAGE_SIZE, x) {
        BothUnit(goal[x]);
      }
      FlashStoredExactlyWhen(mem, map[], address, data, true);
    }
  }

  /** A word of zeros left in the page buffer clears what is stored over it, even with blank checking; and
      without blank checking a programmed byte cannot be set again. */
  lemma LeftoversAndOldBitsSpoil(mem: seq<byte>)
    requires |mem| == FLASH_SIZE
    ensures Stored(mem, map[0 := Word(0, 0)], 0, [0xFF], 1, true)[0] == 0
    ensures mem[0] == 0 ==> Stored(mem, map[], 0, [0xFF], 1, false)[0] == 0
  {
    var data: seq<byte> := [0xFF];
    assert data[..1] == data;
    assert Written(mem, 0, data, true)[0] & 0 == 0 && mem[0] & 0xFF == mem[0];
  }
}
