/** EEPROM and flash drivers of nvm.c, over a model of the NVM controller.

    The controller is taken as the driver's comments describe it: loading a byte into the page buffer ANDs
    it with what that location already holds (nvm.c:229-231), a page write programs only the locations that
    have been loaded (nvm.c:286-288), and every write empties the page buffer (nvm.c:209). */
module Nvm {
  import opened Bits

  const EEPROM_SIZE := 2048
  const EEPROM_PAGE_SIZE := 32

  /** `mem` with `data` in place of the bytes from `address` on. */
  function Overwrite(mem: seq<byte>, address: nat, data: seq<byte>): (r: seq<byte>)
    requires address + |data| <= |mem|
    ensures |r| == |mem|
    ensures forall i :: 0 <= i < |mem| ==> r[i] == if address <= i < address + |data| then data[i - address] else mem[i]
  {
    mem[..address] + data + mem[address + |data|..]
  }

  lemma OverwriteTwice(mem: seq<byte>, address: nat, first: seq<byte>, second: seq<byte>)
    requires address + |first| + |second| <= |mem|
    ensures Overwrite(Overwrite(mem, address, first), address + |first|, second)
         == Overwrite(mem, address, first + second)
  {
  }

  // ----- EEPROM

  /** Page `page` with the loaded locations replaced. */
  function Programmed(mem: seq<byte>, page: nat, buffer: map<nat, byte>): (r: seq<byte>)
    ensures |r| == |mem|
  {
    seq(|mem|, i requires 0 <= i < |mem| =>
      if i / EEPROM_PAGE_SIZE == page && i % EEPROM_PAGE_SIZE in buffer then buffer[i % EEPROM_PAGE_SIZE] else mem[i])
  }

  /** What loading `value` makes of location `i`. */
  function Anded(buffer: map<nat, byte>, i: nat, value: byte): byte {
    if i in buffer then buffer[i] & value else value
  }

  /** A page loaded on top of what is left in the page buffer: each location keeps the bits both have set. */
  function OnTop(buffer: map<nat, byte>, values: seq<byte>): (r: seq<byte>)
    ensures |r| == |values| && (buffer == map[] ==> r == values)
  {
    seq(|values|, i requires 0 <= i < |values| => Anded(buffer, i, values[i]))
  }

  /** What nvm_eeprom_erase_and_write_buffer stores: leftovers in the page buffer mix into the data if the
      first thing it writes is a full page, and are dropped if it is a byte. */
  function Mixed(buffer: map<nat, byte>, address: nat, buf: seq<byte>): (r: seq<byte>)
    ensures |r| == |buf| && (buffer == map[] ==> r == buf)
  {
    if address % EEPROM_PAGE_SIZE == 0 && |buf| >= EEPROM_PAGE_SIZE
    then OnTop(buffer, buf[..EEPROM_PAGE_SIZE]) + buf[EEPROM_PAGE_SIZE..]
    else buf
  }

  class Eeprom {
    var cells: seq<byte>
    var pageBuffer: map<nat, byte>    // the loaded locations of the hardware page buffer

    ghost predicate Valid()
      reads this
    {
      |cells| == EEPROM_SIZE && forall i :: i in pageBuffer ==> i < EEPROM_PAGE_SIZE
    }

    constructor (cells: seq<byte>)
      requires |cells| == EEPROM_SIZE
      ensures Valid() && this.cells == cells && pageBuffer == map[]
    {
      this.cells := cells;
      pageBuffer := map[];
    }

    method ReadByte(address: nat) returns (value: byte)
      requires Valid() && address < EEPROM_SIZE
      ensures value == cells[address]
    {
      value := cells[address];
    }

    method ReadBuffer(address: nat, len: nat) returns (buf: seq<byte>)
      requires Valid() && address + len <= EEPROM_SIZE
      ensures buf == cells[address..address + len]
    {
      buf := cells[address..address + len];
    }

    /** nvm_eeprom_flush_buffer: the erase command is only issued when something is loaded. */
    method FlushBuffer()
      requires Valid()
      modifies this`pageBuffer
      ensures Valid() && pageBuffer == map[]
    {
      if pageBuffer != map[] {
        pageBuffer := map[];
      }
    }

    /** nvm_eeprom_load_byte_to_buffer; the address parameter is a uint8. */
    method LoadByteToBuffer(byteAddress: nat, value: byte)
      requires Valid()
      modifies this`pageBuffer
      ensures Valid()
      ensures var i := byteAddress % 256 % EEPROM_PAGE_SIZE;
        pageBuffer == old(pageBuffer)[i := Anded(old(pageBuffer), i, value)]
    {
      var i := byteAddress % 256 % EEPROM_PAGE_SIZE;
      pageBuffer := pageBuffer[i := Anded(pageBuffer, i, value)];
    }

    /** nvm_eeprom_load_page_to_buffer */
    method LoadPageToBuffer(values: seq<byte>)
      requires Valid() && |values| == EEPROM_PAGE_SIZE
      modifies this`pageBuffer
      ensures Valid()
      ensures forall i :: i in pageBuffer <==> 0 <= i < EEPROM_PAGE_SIZE
      ensures forall i :: 0 <= i < EEPROM_PAGE_SIZE ==> pageBuffer[i] == Anded(old(pageBuffer), i, values[i])
    {
      for i := 0 to EEPROM_PAGE_SIZE
        invariant Valid()
        invariant forall j :: j in pageBuffer <==> 0 <= j < i || j in old(pageBuffer)
        invariant forall j :: 0 <= j < i ==> pageBuffer[j] == Anded(old(pageBuffer), j, values[j])
        invariant forall j :: j in old(pageBuffer) && j >= i ==> pageBuffer[j] == old(pageBuffer)[j]
      {
        LoadByteToBuffer(i, values[i]);
      }
    }

    /** The erase-and-write command, for the page that holds `address`. */
    method ExecuteEraseWrite(address: nat)
      requires Valid() && address < EEPROM_SIZE
      modifies this
      ensures Valid() && pageBuffer == map[]
      ensures cells == Programmed(old(cells), address / EEPROM_PAGE_SIZE, old(pageBuffer))
    {
      cells := Programmed(cells, address / EEPROM_PAGE_SIZE, pageBuffer);
      pageBuffer := map[];
    }

    method AtomicWritePage(page: nat)
      requires Valid() && page < EEPROM_SIZE / EEPROM_PAGE_SIZE
      modifies this
      ensures Valid() && pageBuffer == map[]
      ensures cells == Programmed(old(cells), page, old(pageBuffer))
    {
      ExecuteEraseWrite(page * EEPROM_PAGE_SIZE);
    }

    /** The pair of calls with which the firmware stores a whole page. */
    method WritePage(page: nat, values: seq<byte>)
      requires Valid()
      requires page < EEPROM_SIZE / EEPROM_PAGE_SIZE && |values| == EEPROM_PAGE_SIZE
      modifies this
      ensures Valid() && pageBuffer == map[]
      ensures cells == Overwrite(old(cells), page * EEPROM_PAGE_SIZE, OnTop(old(pageBuffer), values))
    {
      LoadPageToBuffer(values);
      AtomicWritePage(page);
      assert forall i: nat :: i / EEPROM_PAGE_SIZE == page <==>
        page * EEPROM_PAGE_SIZE <= i < page * EEPROM_PAGE_SIZE + EEPROM_PAGE_SIZE;
    }

    /** nvm_eeprom_write_byte: whatever was loaded before is dropped. */
    method WriteByte(address: nat, value: byte)
      requires Valid() && address < EEPROM_SIZE
      modifies this
      ensures Valid() && pageBuffer == map[]
      ensures cells == old(cells)[address := value]
    {
      FlushBuffer();
      LoadByteToBuffer(address, value);
      ExecuteEraseWrite(address);
      OneCellProgrammed(old(cells), address, value);
    }

    /** nvm_eeprom_erase_and_write_buffer: full pages where alignment and length allow, bytes elsewhere. */
    method EraseAndWriteBuffer(address: nat, buf: seq<byte>)
      requires Valid() && address + |buf| <= EEPROM_SIZE
      modifies this
      ensures Valid() && pageBuffer == if buf == [] then old(pageBuffer) else map[]
      ensures cells == Overwrite(old(cells), address, Mixed(old(pageBuffer), address, buf))
    {
      ghost var cells0, buffer0 := cells, pageBuffer;
      var next: nat, len: nat, done: nat := address, |buf|, 0;
      while len != 0
        invariant done + len == |buf| && next == address + done
        invariant Valid() && StoredUpTo(cells0, buffer0, address, buf, done)
      {
        if next % EEPROM_PAGE_SIZE == 0 && len >= EEPROM_PAGE_SIZE {
          StorePage(next, buf, done, cells0, buffer0, address);
          next, done, len := next + EEPROM_PAGE_SIZE, done + EEPROM_PAGE_SIZE, len - EEPROM_PAGE_SIZE;
        } else {
          StoreByte(next, buf, done, cells0, buffer0, address);
          next, done, len := next + 1, done + 1, len - 1;
        }
      }
      assert Mixed(buffer0, address, buf)[..done] == Mixed(buffer0, address, buf);
    }

    /** The first `done` bytes have been stored since the EEPROM held `cells0` and the page buffer `buffer0`. */
    ghost predicate StoredUpTo(cells0: seq<byte>, buffer0: map<nat, byte>, address: nat, buf: seq<byte>, done: nat)
      requires address + |buf| <= |cells0| && done <= |buf|
      reads this
    {
      && pageBuffer == (if done == 0 then buffer0 else map[])
      && (done > 0 && address % EEPROM_PAGE_SIZE == 0 && |buf| >= EEPROM_PAGE_SIZE ==> done >= EEPROM_PAGE_SIZE)
      && cells == Overwrite(cells0, address, Mixed(buffer0, address, buf)[..done])
    }

    /** One turn with a full page. */
    method StorePage(next: nat, buf: seq<byte>, done: nat,
        ghost cells0: seq<byte>, ghost buffer0: map<nat, byte>, ghost address: nat)
      requires Valid() && address + |buf| <= |cells0| == EEPROM_SIZE && done + EEPROM_PAGE_SIZE <= |buf|
      requires next == address + done && next % EEPROM_PAGE_SIZE == 0
      requires StoredUpTo(cells0, buffer0, address, buf, done)
      modifies this
      ensures Valid() && StoredUpTo(cells0, buffer0, address, buf, done + EEPROM_PAGE_SIZE)
    {
      MixedPage(buffer0, address, buf, done);
      OnePieceMore(cells0, address, Mixed(buffer0, address, buf), done, EEPROM_PAGE_SIZE);
      var page, values := next / EEPROM_PAGE_SIZE, buf[done..done + EEPROM_PAGE_SIZE];
      assert page * EEPROM_PAGE_SIZE == next && page < EEPROM_SIZE / EEPROM_PAGE_SIZE;
      WritePage(page, values);
    }

    /** One turn with a byte. */
    method StoreByte(next: nat, buf: seq<byte>, done: nat,
        ghost cells0: seq<byte>, ghost buffer0: map<nat, byte>, ghost address: nat)
      requires Valid() && address + |buf| <= |cells0| == EEPROM_SIZE && done < |buf|
      requires next == address + done && !(next % EEPROM_PAGE_SIZE == 0 && |buf| - done >= EEPROM_PAGE_SIZE)
      requires StoredUpTo(cells0, buffer0, address, buf, done)
      modifies this
      ensures Valid() && StoredUpTo(cells0, buffer0, address, buf, done + 1)
    {
      MixedByte(buffer0, address, buf, done);
      OnePieceMore(cells0, address, Mixed(buffer0, address, buf), done, 1);
      OneByteOverwrite(cells, next, buf[done]);
      assert Mixed(buffer0, address, buf)[done..done + 1] == [buf[done]];
      WriteByte(next, buf[done]);
    }
  }

  lemma OneByteOverwrite(mem: seq<byte>, address: nat, value: byte)
    requires address < |mem|
    ensures Overwrite(mem, address, [value]) == mem[address := value]
  {
  }

  lemma OnePieceMore(mem: seq<byte>, address: nat, data: seq<byte>, done: nat, k: nat)
    requires address + |data| <= |mem| && done + k <= |data|
    ensures Overwrite(Overwrite(mem, address, data[..done]), address + done, data[done..done + k])
         == Overwrite(mem, address, data[..done + k])
  {
    OverwriteTwice(mem, address, data[..done], data[done..done + k]);
    assert data[..done] + data[done..done + k] == data[..done + k];
  }

  /** A full page written after `done` bytes: leftovers matter to the first write only. */
  lemma MixedPage(buffer: map<nat, byte>, address: nat, buf: seq<byte>, done: nat)
    requires done + EEPROM_PAGE_SIZE <= |buf| && (address + done) % EEPROM_PAGE_SIZE == 0
    ensures var left := if done == 0 then buffer else map[];
      OnTop(left, buf[done..done + EEPROM_PAGE_SIZE]) == Mixed(buffer, address, buf)[done..done + EEPROM_PAGE_SIZE]
  {
    if done > 0 && address % EEPROM_PAGE_SIZE == 0 {
      assert done >= EEPROM_PAGE_SIZE;
    }
    var left := if done == 0 then buffer else map[];
    var a := OnTop(left, buf[done..done + EEPROM_PAGE_SIZE]);
    var b := Mixed(buffer, address, buf)[done..done + EEPROM_PAGE_SIZE];
    forall i | 0 <= i < EEPROM_PAGE_SIZE ensures a[i] == b[i] {
    }
  }

  /** A single byte comes first, or where no full page is left. */
  lemma MixedByte(buffer: map<nat, byte>, address: nat, buf: seq<byte>, done: nat)
    requires done < |buf| && !((address + done) % EEPROM_PAGE_SIZE == 0 && |buf| - done >= EEPROM_PAGE_SIZE)
    requires done > 0 && address % EEPROM_PAGE_SIZE == 0 && |buf| >= EEPROM_PAGE_SIZE ==> done >= EEPROM_PAGE_SIZE
    ensures Mixed(buffer, address, buf)[done] == buf[done]
  {
  }

  /** Different data leave different memory. */
  lemma OverwriteIsInjective(mem: seq<byte>, address: nat, first: seq<byte>, second: seq<byte>)
    requires address + |first| <= |mem| && |first| == |second|
    ensures Overwrite(mem, address, first) == Overwrite(mem, address, second) <==> first == second
  {
    var a, b := Overwrite(mem, address, first), Overwrite(mem, address, second);
    if a == b {
      forall i | 0 <= i < |first| ensures first[i] == second[i] {
        assert a[address + i] == first[i] && b[address + i] == second[i];
      }
    }
  }

  lemma SameOnTop(buffer: map<nat, byte>, values: seq<byte>)
    ensures OnTop(buffer, values) == values
       <==> forall i :: i in buffer && i < |values| ==> buffer[i] & values[i] == values[i]
  {
    var r := OnTop(buffer, values);
    forall i | 0 <= i < |values| ensures r[i] == Anded(buffer, i, values[i]) {
    }
    if r == values {
      forall i | i in buffer && i < |values| ensures buffer[i] & values[i] == values[i] {
        assert r[i] == Anded(buffer, i, values[i]);
      }
    }
  }

  /** The buffer is stored as it is exactly when the page buffer was empty where that matters: the first write
      is not a full page, or no leftover byte has a bit cleared that the data need set. */
  lemma StoredAsGivenExactlyWhen(mem: seq<byte>, buffer: map<nat, byte>, address: nat, buf: seq<byte>)
    requires address + |buf| <= |mem|
    ensures Overwrite(mem, address, Mixed(buffer, address, buf)) == Overwrite(mem, address, buf)
       <==> (address % EEPROM_PAGE_SIZE == 0 && |buf| >= EEPROM_PAGE_SIZE ==>
               forall i :: i in buffer && i < EEPROM_PAGE_SIZE ==> buffer[i] & buf[i] == buf[i])
  {
    OverwriteIsInjective(mem, address, Mixed(buffer, address, buf), buf);
    if address % EEPROM_PAGE_SIZE == 0 && |buf| >= EEPROM_PAGE_SIZE {
      var page, rest := buf[..EEPROM_PAGE_SIZE], buf[EEPROM_PAGE_SIZE..];
      SameOnTop(buffer, page);
      assert buf == page + rest;
      assert (OnTop(buffer, page) + rest)[..EEPROM_PAGE_SIZE] == OnTop(buffer, page);
    }
  }

  /** One leftover byte that spoils a page: 0 where the page needs 0xFF. */
  lemma LeftoverSpoilsAPage(mem: seq<byte>)
    requires |mem| == EEPROM_SIZE
    ensures var page := seq(EEPROM_PAGE_SIZE, _ => 0xFF);
      Overwrite(mem, 0, Mixed(map[0 := 0], 0, page)) != Overwrite(mem, 0, page)
  {
    var buffer: map<nat, byte>, page := map[0 := 0], seq(EEPROM_PAGE_SIZE, _ => 0xFF);
    StoredAsGivenExactlyWhen(mem, buffer, 0, page);
    assert 0 in buffer && buffer[0] & page[0] == 0;
  }

  lemma OneCellProgrammed(mem: seq<byte>, address: nat, value: byte)
    requires address < |mem|
    ensures Programmed(mem, address / EEPROM_PAGE_SIZE, map[address % 256 % EEPROM_PAGE_SIZE := value])
         == mem[address := value]
  {
    assert address % 256 % EEPROM_PAGE_SIZE == address % EEPROM_PAGE_SIZE;
  }
}
