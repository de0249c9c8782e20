/**
Block writes to an external EEPROM that is written page by page: a packet carries the address and
data, and the chip's address counter wraps within the page.
*/
module EepromI2c {
  import opened Arithmetic
  import opened Common

  datatype Chip = Chip(bytes: nat, pageSize: nat, addressSize: nat)

  /** Pages fill the chip, its addresses fit in the address bytes, and a page is counted with eight bits. */
  predicate Suits(c: Chip) {
    0 < c.pageSize < 0x100 && c.bytes % c.pageSize == 0 && c.bytes <= Pow256(c.addressSize)
  }

  // ---- the chip

  function BigEndian(a: nat, n: nat): (bs: seq<byte>)
    ensures |bs| == n
  {
    if n == 0 then [] else BigEndian(a / 0x100, n - 1) + [a % 0x100]
  }

  function Decode(bs: seq<byte>): nat { if bs == [] then 0 else Decode(bs[..|bs| - 1]) * 0x100 + bs[|bs| - 1] }

  /** Where byte `i` of a packet for `addr` goes: the page is fixed, the place in it wraps. */
  function PageSlot(c: Chip, addr: nat, i: nat): nat
    requires c.pageSize > 0
  {
    addr / c.pageSize * c.pageSize + (addr % c.pageSize + i) % c.pageSize
  }

  function PageWrite(c: Chip, mem: seq<byte>, addr: nat, data: seq<byte>): (mem': seq<byte>)
    requires c.pageSize > 0
    ensures |mem'| == |mem|
  {
    if data == [] then mem
    else
      var n := |data| - 1;
      var before := PageWrite(c, mem, addr, data[..n]);
      var slot := PageSlot(c, addr, n);
      if slot < |before| then before[slot := data[n]] else before
  }

  /** A packet as the chip takes it: an address, and data for that page. */
  datatype Part = Part(at: nat, data: seq<byte>)

  function ReceiveAll(c: Chip, mem: seq<byte>, parts: seq<Part>): (mem': seq<byte>)
    requires c.pageSize > 0
    ensures |mem'| == |mem|
  {
    if parts == [] then mem
    else
      var n := |parts| - 1;
      PageWrite(c, ReceiveAll(c, mem, parts[..n]), parts[n].at, parts[n].data)
  }

  // ---- the intended effect

  function Flat(mem: seq<byte>, addr: nat, data: seq<byte>): seq<byte>
    requires addr + |data| <= |mem|
  {
    mem[..addr] + data + mem[addr + |data|..]
  }

  predicate InPage(c: Chip, at: nat, n: nat)
    requires c.pageSize > 0
  {
    PageOffset(c, at) + n <= c.pageSize
  }

  function PageOffset(c: Chip, addr: nat): (offset: nat)
    requires c.pageSize > 0
    ensures offset < c.pageSize
  {
    addr % c.pageSize
  }

  /** The parts carry `data` to the addresses from `addr` on: in order, without gap or overlap, none
      empty and none leaving its page. */
  predicate Carries(c: Chip, parts: seq<Part>, addr: nat, data: seq<byte>)
    requires c.pageSize > 0
  {
    if parts == [] then data == []
    else
      var p := parts[|parts| - 1];
      && 0 < |p.data| <= |data|
      && var front := |data| - |p.data|;
         && p.at == addr + front && InPage(c, p.at, |p.data|)
         && p.data == data[front..]
         && Carries(c, parts[..|parts| - 1], addr, data[..front])
  }

  // ---- proofs

  lemma {:induction false} AddressRoundTrip(a: nat, n: nat)
    ensures Decode(BigEndian(a, n)) == a % Pow256(n)
  {
    if n > 0 {
      assert BigEndian(a, n)[..n - 1] == BigEndian(a / 0x100, n - 1);
      AddressRoundTrip(a / 0x100, n - 1);
      DivMod256(a, Pow256(n - 1));
    }
  }

  /** The address bytes, most significant first. */
  lemma {:induction false} AddressByte(a: nat, n: nat, i: nat)
    requires i < n
    ensures BigEndian(a, n)[i] == a / Pow256(n - 1 - i) % 0x100
  {
    if i < n - 1 {
      AddressByte(a / 0x100, n - 1, i);
      DivDiv256(a, Pow256(n - 2 - i));
    }
  }

  lemma SmallMod(a: nat, p: nat)
    requires a < p
    ensures a % p == a
  {}

  /** Inside its page a packet goes to successive addresses. */
  lemma SlotIsNext(c: Chip, addr: nat, i: nat)
    requires c.pageSize > 0 && addr % c.pageSize + i < c.pageSize
    ensures PageSlot(c, addr, i) == addr + i
  {
    SmallMod(addr % c.pageSize + i, c.pageSize);
  }

  /** A packet that stays in its page is a flat copy. */
  lemma {:induction false} PageWriteIsFlat(c: Chip, mem: seq<byte>, addr: nat, data: seq<byte>)
    requires c.pageSize > 0 && addr + |data| <= |mem| && InPage(c, addr, |data|)
    ensures PageWrite(c, mem, addr, data) == Flat(mem, addr, data)
  {
    if data != [] {
      var n := |data| - 1;
      PageWriteIsFlat(c, mem, addr, data[..n]);
      SlotIsNext(c, addr, n);
    }
  }

  /** A packet that leaves its page is not: its last bytes come out at the start of the page. */
  lemma PageWriteWraps(c: Chip, addr: nat, i: nat)
    requires c.pageSize > 0 && i < c.pageSize && addr % c.pageSize + i >= c.pageSize
    ensures PageSlot(c, addr, i) == addr + i - c.pageSize < addr
  {
    var r := addr % c.pageSize + i - c.pageSize;
    assert addr == addr / c.pageSize * c.pageSize + addr % c.pageSize;
    DivUnique(addr % c.pageSize + i, c.pageSize, 1, r);
  }

  lemma FlatMore(mem: seq<byte>, addr: nat, a: seq<byte>, b: seq<byte>)
    requires addr + |a| + |b| <= |mem|
    ensures |Flat(mem, addr, a)| == |mem|
    ensures Flat(Flat(mem, addr, a), addr + |a|, b) == Flat(mem, addr, a + b)
  {}

  lemma CarriesMore(c: Chip, parts: seq<Part>, addr: nat, data: seq<byte>, d: seq<byte>)
    requires c.pageSize > 0 && Carries(c, parts, addr, data) && d != [] && InPage(c, addr + |data|, |d|)
    ensures Carries(c, parts + [Part(addr + |data|, d)], addr, data + d)
  {
    hide InPage;
    hide Carries;
    var p := Part(addr + |data|, d);
    var parts', data' := parts + [p], data + d;
    assert parts'[|parts'| - 1] == p && parts'[..|parts'| - 1] == parts;
    assert |data'| - |d| == |data|;
    assert data'[|data|..] == d && data'[..|data|] == data;
    CarriesLast(c, parts', addr, data');
  }

  /** One part more, as the definition has it. */
  lemma CarriesLast(c: Chip, parts: seq<Part>, addr: nat, data: seq<byte>)
    requires c.pageSize > 0 && parts != []
    requires var p := parts[|parts| - 1];
             && 0 < |p.data| <= |data| && p.at == addr + |data| - |p.data| && InPage(c, p.at, |p.data|)
             && p.data == data[|data| - |p.data|..]
             && Carries(c, parts[..|parts| - 1], addr, data[..|data| - |p.data|])
    ensures Carries(c, parts, addr, data)
  {}

  /** Any parts that carry the data leave the chip with a flat copy of it. */
  lemma {:induction false} CarriedIsFlat(c: Chip, mem: seq<byte>, parts: seq<Part>, addr: nat, data: seq<byte>)
    requires c.pageSize > 0 && Carries(c, parts, addr, data) && addr + |data| <= |mem|
    ensures ReceiveAll(c, mem, parts) == Flat(mem, addr, data)
  {
    if parts != [] {
      hide PageWrite;
      hide InPage;
      hide Flat;
      var n := |parts| - 1;
      var d := parts[n].data;
      var front := data[..|data| - |d|];
      CarriedIsFlat(c, mem, parts[..n], addr, front);
      FlatMore(mem, addr, front, d);
      assert front + d == data;
      PageWriteIsFlat(c, Flat(mem, addr, front), addr + |front|, d);
    } else {
      assert Flat(mem, addr, data) == mem;
    }
  }

  // ---- the driver

  lemma NothingSent(c: Chip, mem: seq<byte>, addr: nat)
    requires c.pageSize > 0 && addr <= |mem|
    ensures Flat(mem, addr, []) == mem && Carries(c, [], addr, [])
  {}

  class Driver {
    const c: Chip
    /** The memory of the chip. */
    const mem: array<byte>
    /** All packets taken so far. */
    var parts: seq<Part>

    ghost predicate Valid() { Suits(c) && mem.Length == c.bytes }

    constructor (c: Chip, mem: array<byte>)
      requires Suits(c) && mem.Length == c.bytes
      ensures Valid() && this.c == c && this.mem == mem && parts == []
    {
      this.c, this.mem, parts := c, mem, [];
    }

    /** Puts the address into the first bytes of the buffer, most significant first. */
    method FillTargetAddress(buffer: array<byte>, addr: nat)
      requires c.addressSize <= buffer.Length
      modifies buffer
      ensures buffer[..c.addressSize] == BigEndian(addr, c.addressSize)
      ensures buffer[c.addressSize..] == old(buffer[c.addressSize..])
    {
      var p := addr;
      assert BigEndian(addr, c.addressSize) == BigEndian(p, c.addressSize) + buffer[c.addressSize..c.addressSize];
      for i := 0 to c.addressSize
        invariant BigEndian(addr, c.addressSize)
                  == BigEndian(p, c.addressSize - i) + buffer[c.addressSize - i..c.addressSize]
        invariant buffer[c.addressSize..] == old(buffer[c.addressSize..])
      {
        var k := c.addressSize - 1 - i;
        ghost var tail := buffer[k + 1..c.addressSize];
        buffer[k] := p % 0x100;
        assert buffer[k..c.addressSize] == [p % 0x100] + tail;
        p := p / 0x100;
      }
    }

    /** One transmission: the address bytes, then data. */
    method I2cTransmit(packet: seq<byte>)
      requires Valid() && c.addressSize <= |packet|
      modifies mem, this`parts
      ensures var part := Part(Decode(packet[..c.addressSize]), packet[c.addressSize..]);
              parts == old(parts) + [part] && mem[..] == PageWrite(c, old(mem[..]), part.at, part.data)
    {
      var addr, data := Decode(packet[..c.addressSize]), packet[c.addressSize..];
      WriteInPage(addr, data);
      parts := parts + [Part(addr, data)];
    }

    method WriteInPage(addr: nat, data: seq<byte>)
      requires c.pageSize > 0
      modifies mem
      ensures mem[..] == PageWrite(c, old(mem[..]), addr, data)
    {
      hide PageSlot;
      for i := 0 to |data|
        invariant mem[..] == PageWrite(c, old(mem[..]), addr, data[..i])
      {
        assert data[..i + 1][..i] == data[..i];
        var slot := PageSlot(c, addr, i);
        if slot < mem.Length { mem[slot] := data[i]; }
      }
      assert data[..|data|] == data;
    }

    /** A write of any address and length inside the chip is a flat copy, in packets that never leave a page. */
    method EepromWriteBlock(buf: seq<byte>, addr: nat)
      requires Valid() && addr + |buf| <= c.bytes
      modifies mem, this`parts
      ensures mem[..] == Flat(old(mem[..]), addr, buf)
      ensures old(parts) <= parts && Carries(c, parts[|old(parts)|..], addr, buf)
    {
      hide Flat;
      hide Carries;
      hide PageOffset;
      ghost var was, sent := mem[..], parts;
      NothingSent(c, was, addr);
      var packet := new byte[c.addressSize + c.pageSize](_ => 0);
      var target: nat, len: nat := addr, |buf|;
      ghost var done: nat := 0;
      assert parts[|sent|..] == [] && buf[..0] == [];
      while len > 0
        invariant done + len == |buf| && target == addr + done
        invariant mem[..] == Flat(was, addr, buf[..done])
        invariant sent <= parts && Carries(c, parts[|sent|..], addr, buf[..done])
        decreases len
      {
        var pageOffset := PageOffset(c, target);
        var writeLength := c.pageSize - pageOffset;
        if writeLength > len { writeLength := len; }
        ghost var d := buf[done..done + writeLength];
        ghost var before := parts[|sent|..];
        FillPacket(packet, target, buf[|buf| - len..|buf| - len + writeLength]);
        SendPart(packet[..c.addressSize + writeLength], target, d);
        FlatMore(was, addr, buf[..done], d);
        CarriesMore(c, before, addr, buf[..done], d);
        assert parts[|sent|..] == before + [Part(target, d)];
        assert buf[..done] + d == buf[..done + writeLength];
        target := target + writeLength;
        len := len - writeLength;
        done := done + writeLength;
      }
      assert buf[..|buf|] == buf;
    }

    method FillPacket(packet: array<byte>, target: nat, data: seq<byte>)
      requires c.addressSize + |data| <= packet.Length
      modifies packet
      ensures packet[..c.addressSize + |data|] == BigEndian(target, c.addressSize) + data
    {
      FillTargetAddress(packet, target);
      for i := 0 to |data|
        invariant packet[..c.addressSize + i] == BigEndian(target, c.addressSize) + data[..i]
      {
        packet[c.addressSize + i] := data[i];
        assert packet[..c.addressSize + i + 1] == packet[..c.addressSize + i] + [data[i]];
      }
    }

    /** A packet inside one page. */
    method SendPart(packet: seq<byte>, target: nat, ghost d: seq<byte>)
      requires Valid() && packet == BigEndian(target, c.addressSize) + d
      requires target + |d| <= c.bytes && target < c.bytes && InPage(c, target, |d|)
      modifies mem, this`parts
      ensures parts == old(parts) + [Part(target, d)] && mem[..] == Flat(old(mem[..]), target, d)
    {
      hide Flat;
      hide PageWrite;
      AddressRoundTrip(target, c.addressSize);
      SmallMod(target, Pow256(c.addressSize));
      assert packet[..c.addressSize] == BigEndian(target, c.addressSize) && packet[c.addressSize..] == d;
      PageWriteIsFlat(c, mem[..], target, d);
      I2cTransmit(packet);
    }

    /** The chip answers with the bytes from the address on. */
    method EepromReadBlock(addr: nat, len: nat) returns (buf: seq<byte>)
      requires Valid() && addr + len <= c.bytes && addr < c.bytes
      ensures buf == mem[addr..addr + len]
    {
      var packet := new byte[c.addressSize](_ => 0);
      FillTargetAddress(packet, addr);
      AddressRoundTrip(addr, c.addressSize);
      SmallMod(addr, Pow256(c.addressSize));
      var from := Decode(packet[..c.addressSize]);
      buf := mem[from..from + len];
    }

    /** Zeroes the chip page by page. */
    method EepromDriverErase()
      requires Valid()
      modifies mem, this`parts
      ensures forall i :: 0 <= i < mem.Length ==> mem[i] == 0
    {
      var buf: seq<byte> := seq(c.pageSize, _ => 0);
      var addr, page := 0, 0;
      while addr < c.bytes
        invariant addr == page * c.pageSize && addr <= c.bytes
        invariant forall i :: 0 <= i < addr ==> mem[i] == 0
        decreases c.bytes - addr
      {
        WholePage(c, page);
        ghost var was := mem[..];
        EepromWriteBlock(buf, addr);
        assert mem[..] == Flat(was, addr, buf);
        forall i | 0 <= i < addr + c.pageSize ensures mem[i] == 0 {
          assert mem[i] == Flat(was, addr, buf)[i];
        }
        addr := addr + c.pageSize;
        page := page + 1;
      }
    }
  }

  /** A page that starts inside the chip ends inside it. */
  lemma WholePage(c: Chip, page: nat)
    requires Suits(c) && page * c.pageSize < c.bytes
    ensures page * c.pageSize + c.pageSize <= c.bytes && (page + 1) * c.pageSize == page * c.pageSize + c.pageSize
  {
    MulNext(page, c.pageSize);
    var pages := c.bytes / c.pageSize;
    assert c.bytes == pages * c.pageSize;
    if pages > page { MulMono(pages, page + 1, c.pageSize); } else { MulMono(page, pages, c.pageSize); }
  }
}
