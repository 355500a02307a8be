/** A memory behind an I2C bus, reached through a few address bytes and a few
    bits of the slave address, whose counters wrap: the read counter in its
    bank, the write counter in its page. */
module I2cMem {
  import opened Wrappers
  import opened MemoryBatch
  import opened MemoryLowering
  import opened Division

  // ----- Configuration -------------------------------------------------------------------------

  function Pow(base: nat, n: nat): (r: nat)
    ensures base > 0 ==> r > 0
  {
    if n == 0 then 1 else base * Pow(base, n - 1)
  }

  datatype Config = Config(saddr: int, addrBytes: nat, saddrBits: nat, total: int, page: int, readChunk: int)

  /** Bytes reachable without changing the slave address. */
  function Bank(c: Config): nat { Pow(256, c.addrBytes) }

  datatype Options = Options(saddr: Option<int>, addrBytes: Option<int>, saddrBits: int, size: Option<int>,
                             pageSize: Option<int>, readChunk: Option<int>)

  function Or(o: Option<int>, default: int): int { if o.Some? then o.value else default }

  /** What `start` accepts, with a class's defaults for what is not given. */
  predicate Started(c: Config) {
    && 0 <= c.saddr <= 0x7f && 1 <= c.addrBytes <= 4 && c.page >= 1 && c.readChunk >= 1
    && Bank(c) % c.page == 0 && c.total <= Bank(c) * Pow(2, c.saddrBits)
  }

  /** The configuration the options ask for, with defaults for what they leave open. */
  predicate Asks(o: Options, addrBytes: int, page: int, readChunk: int, c: Config) {
    && o.saddr == Some(c.saddr) && c.saddrBits == o.saddrBits && c.addrBytes == Or(o.addrBytes, addrBytes)
    && c.page == Or(o.pageSize, page) && c.readChunk == Or(o.readChunk, readChunk)
    && c.total == Or(o.size, Bank(c) * Pow(2, c.saddrBits))
  }

  /** The checks of `start`; a shift by a negative count raises like the rest. */
  method Start(o: Options, addrBytes: int, page: int, readChunk: int) returns (r: Option<Config>)
    ensures r.Some? ==> Asks(o, addrBytes, page, readChunk, r.value) && Started(r.value)
    ensures r.None? ==> forall c :: Asks(o, addrBytes, page, readChunk, c) ==> !Started(c)
  {
    r := None;
    if o.saddr.None? || !(0 <= o.saddr.value <= 0x7f) {
      return;
    }
    var bytes := Or(o.addrBytes, addrBytes);
    if !(1 <= bytes <= 4) {
      return;
    }
    var pageSize, chunk := Or(o.pageSize, page), Or(o.readChunk, readChunk);
    if pageSize < 1 || chunk < 1 {
      return;
    }
    var bank := Pow(256, bytes);
    if bank % pageSize != 0 || o.saddrBits < 0 {
      return;
    }
    var most := bank * Pow(2, o.saddrBits);
    var total := Or(o.size, most);
    if total > most {
      return;
    }
    r := Some(Config(o.saddr.value, bytes, o.saddrBits, total, pageSize, chunk));
  }

  // ----- Addresses on the wire -------------------------------------------------------------------

  function BigEndian(v: nat, n: nat): (bs: seq<Byte>)
    ensures |bs| == n
  {
    if n == 0 then [] else BigEndian(v / 256, n - 1) + [v % 256]
  }

  function FromBigEndian(bs: seq<Byte>): nat {
    if bs == [] then 0 else FromBigEndian(bs[..|bs| - 1]) * 256 + bs[|bs| - 1]
  }

  lemma {:induction false} BigEndianRoundTrip(v: nat, n: nat)
    requires v < Pow(256, n)
    ensures FromBigEndian(BigEndian(v, n)) == v
    decreases n
  {
    if n > 0 {
      BigEndianRoundTrip(v / 256, n - 1);
      assert BigEndian(v, n)[..n - 1] == BigEndian(v / 256, n - 1);
    }
  }

  /** The slave address without the bits that select the bank. */
  function Base(c: Config): int { c.saddr - c.saddr % Pow(2, c.saddrBits) }

  /** The slave address to talk to and the address prefix. The bank fits in the
      bits cleared for it, so setting them adds it. */
  function AddressEncode(c: Config, addr: int): (r: (int, seq<Byte>))
    requires 0 <= addr
  {
    (Base(c) + addr / Bank(c), BigEndian(addr % Bank(c), c.addrBytes))
  }

  /** The device answers to the slave addresses that agree with its own above the bits
      that select the bank. */
  predicate Addressed(c: Config, saddr: int) { saddr / Pow(2, c.saddrBits) == c.saddr / Pow(2, c.saddrBits) }

  /** The byte it takes them for. */
  function Decode(c: Config, saddr: int, prefix: seq<Byte>): int {
    (saddr % Pow(2, c.saddrBits)) * Bank(c) + FromBigEndian(prefix)
  }

  /** Byte `i` of the prefix, the highest first. */
  lemma {:induction false} BigEndianAt(v: nat, n: nat, i: nat)
    requires i < n
    ensures BigEndian(v, n)[i] == (v / Pow(256, n - 1 - i)) % 256
    decreases n
  {
    if i < n - 1 {
      BigEndianAt(v / 256, n - 1, i);
      DivTwice(v, 256, Pow(256, n - 2 - i));
    }
  }

  /** The bank selected fits in the bits set aside for it. */
  lemma {:induction false} BankFits(addr: int, bank: int, banks: int)
    requires 0 <= addr < bank * banks && bank > 0
    ensures 0 <= addr / bank < banks
  {
    DivMod(addr, bank);
    var q := addr / bank;
    assert q >= banks ==> q * bank >= banks * bank;
  }

  lemma {:induction false} EncodeDecodes(c: Config, addr: int)
    requires Started(c) && 0 <= addr < c.total
    ensures var (s, prefix) := AddressEncode(c, addr);
            Addressed(c, s) && |prefix| == c.addrBytes && Decode(c, s, prefix) == addr
  {
    EncodeOnWire(c, addr);
    DivMod(addr, Bank(c));
    BigEndianRoundTrip(addr % Bank(c), c.addrBytes);
  }

  /** The slave address is the device's, with the bank in its lowest bits; the prefix
      is the place in the bank. */
  lemma {:induction false} EncodeOnWire(c: Config, addr: int)
    requires Started(c) && 0 <= addr < c.total
    ensures var (s, prefix) := AddressEncode(c, addr);
            && s / Pow(2, c.saddrBits) == c.saddr / Pow(2, c.saddrBits)
            && s % Pow(2, c.saddrBits) == addr / Bank(c)
            && (c.saddrBits == 0 ==> s == c.saddr)
            && |prefix| == c.addrBytes
            && forall i: nat :: i < c.addrBytes ==> prefix[i] == (addr % Bank(c) / Pow(256, c.addrBytes - 1 - i)) % 256
  {
    var p := Pow(2, c.saddrBits);
    DivMod(c.saddr, p);
    BankFits(addr, Bank(c), p);
    DivUnique(AddressEncode(c, addr).0, p, c.saddr / p, addr / Bank(c));
    forall i: nat | i < c.addrBytes
      ensures AddressEncode(c, addr).1[i] == (addr % Bank(c) / Pow(256, c.addrBytes - 1 - i)) % 256
    {
      BigEndianAt(addr % Bank(c), c.addrBytes, i);
    }
  }

  /** Different bytes of the array have different addresses on the wire. */
  lemma {:induction false} EncodeInjective(c: Config, a: int, b: int)
    requires Started(c) && 0 <= a < c.total && 0 <= b < c.total && AddressEncode(c, a) == AddressEncode(c, b)
    ensures a == b
  {
    EncodeDecodes(c, a);
    EncodeDecodes(c, b);
  }

  /** Every slave address used is a 7-bit one, if and only if the array ends within
      the banks that are left up to 0x7f. */
  lemma {:induction false} SlaveAddressesFitIff(c: Config)
    requires Started(c)
    ensures (forall addr :: 0 <= addr < c.total ==> AddressEncode(c, addr).0 <= 0x7f)
            <==> c.total <= (0x80 - (c.saddr - c.saddr % Pow(2, c.saddrBits))) * Bank(c)
  {
    var left, bank := 0x80 - Base(c), Bank(c);
    BaseBelow(c);
    if c.total <= left * bank {
      forall addr | 0 <= addr < c.total ensures AddressEncode(c, addr).0 <= 0x7f { BankFits(addr, bank, left); }
    } else {
      var addr := left * bank;
      assert 0 <= addr < c.total;
      DivUnique(addr, bank, left, 0);
      assert AddressEncode(c, addr).0 == 0x80;
    }
  }

  lemma {:induction false} BaseBelow(c: Config)
    requires Started(c)
    ensures 0 <= Base(c) <= c.saddr
  {
    RemainderBelow(c.saddr, Pow(2, c.saddrBits));
  }

  lemma {:induction false} RemainderBelow(a: int, m: int)
    requires a >= 0 && m > 0
    ensures 0 <= a - a % m <= a
  {
    DivMod(a, m);
    assert (a / m) * m >= 0;
  }

  // ----- The device --------------------------------------------------------------------------------

  /** Bytes from `base + pos` on, the position wrapping at `size`. */
  function ReadWrapped(m: Memory, base: int, size: int, pos: int, n: nat): (bs: seq<Byte>)
    requires size > 0
    ensures |bs| == n
    decreases n
  {
    if n == 0 then [] else [At(m, base + pos)] + ReadWrapped(m, base, size, (pos + 1) % size, n - 1)
  }

  function WriteWrapped(m: Memory, base: int, size: int, pos: int, data: seq<Byte>): Memory
    requires size > 0
    decreases |data|
  {
    if data == [] then m
    else WriteWrapped(m.(cells := m.cells[base + pos := data[0]]), base, size, (pos + 1) % size, data[1..])
  }

  datatype Transfer = Transfer(saddr: int, dataW: seq<Byte>, sizeR: nat)

  /** The device, when it is addressed, takes the address bytes, stores what follows
      them, and answers from where its counter stands; nobody else answers. */
  function StartOf(c: Config, t: Transfer): int
    requires |t.dataW| >= c.addrBytes
  {
    Decode(c, t.saddr, t.dataW[..c.addrBytes])
  }

  function Answer(c: Config, m: Memory, t: Transfer): (bs: seq<Byte>)
    requires |t.dataW| >= c.addrBytes
    ensures |bs| == t.sizeR
  {
    var a := StartOf(c, t);
    if !Addressed(c, t.saddr) then seq(t.sizeR, _ => 0xff)
    else ReadWrapped(m, a - a % Bank(c), Bank(c), a % Bank(c), t.sizeR)
  }

  function After(c: Config, m: Memory, t: Transfer): Memory
    requires |t.dataW| >= c.addrBytes && c.page > 0
  {
    var a := StartOf(c, t);
    var low := a % Bank(c);
    if !Addressed(c, t.saddr) then m
    else WriteWrapped(m, a - a % Bank(c) + (low - low % c.page), c.page, low % c.page, t.dataW[c.addrBytes..])
  }

  /** Counters that do not reach the end of their window do not wrap. */
  lemma {:induction false} ReadStraight(m: Memory, base: int, size: int, pos: int, n: nat)
    requires 0 <= pos && pos + n <= size && size > 0
    ensures ReadWrapped(m, base, size, pos, n) == Peek(m, base + pos, n)
    decreases n
  {
    if n > 1 {
      SmallMod(pos + 1, size);
      ReadStraight(m, base, size, pos + 1, n - 1);
    }
    if n > 0 {
      assert Peek(m, base + pos, n) == [At(m, base + pos)] + Peek(m, base + pos + 1, n - 1);
    }
  }

  lemma {:induction false} SmallMod(x: int, b: int)
    requires 0 <= x < b
    ensures x % b == x
  {}

  lemma {:induction false} WriteStraight(m: Memory, base: int, size: int, pos: int, data: seq<Byte>)
    requires 0 <= pos && pos + |data| <= size && size > 0
    ensures WriteWrapped(m, base, size, pos, data) == Poke(m, base + pos, data)
    decreases |data|
  {
    if |data| > 1 {
      SmallMod(pos + 1, size);
      WriteStraight(m.(cells := m.cells[base + pos := data[0]]), base, size, pos + 1, data[1..]);
    } else if |data| == 1 {
      assert data[1..] == [];
    }
  }

  /** Pages divide banks: the place in the page does not depend on the bank. */
  lemma {:induction false} PageInBank(a: int, bank: int, page: int)
    requires bank > 0 && page > 0 && bank % page == 0
    ensures a % bank % page == a % page
  {
    var q, low := a / bank, a % bank;
    DivMod(a, bank);
    DivMod(bank, page);
    DivMod(low, page);
    var k := bank / page;
    assert a == (q * k + low / page) * page + low % page by {
      assert q * bank == q * (k * page) == (q * k) * page;
    }
    DivUnique(a, page, q * k + low / page, low % page);
  }

  // ----- Chunks --------------------------------------------------------------------------------------

  datatype Piece = Piece(offset: nat, addr: int, count: nat)

  function ReadCount(c: Config, cursor: int, room: int): int
    requires c.readChunk > 0
  {
    Min(Min(c.readChunk, room), Bank(c) - cursor % Bank(c))
  }

  function WriteCount(c: Config, cursor: int, room: int): int
    requires c.page > 0
  {
    Min(c.page - cursor % c.page, room)
  }

  /** No chunk is longer than `read_chunk`, and none crosses a bank. */
  function ReadPieces(c: Config, addr: int, size: int, offset: nat): (ps: seq<Piece>)
    requires c.readChunk > 0
    decreases size - offset
  {
    if offset >= size then []
    else
      var n := ReadCount(c, addr + offset, size - offset);
      [Piece(offset, addr + offset, n)] + ReadPieces(c, addr, size, offset + n)
  }

  /** None crosses a page. */
  function WritePieces(c: Config, addr: int, size: int, offset: nat): (ps: seq<Piece>)
    requires c.page > 0
    decreases size - offset
  {
    if offset >= size then []
    else
      var n := WriteCount(c, addr + offset, size - offset);
      [Piece(offset, addr + offset, n)] + WritePieces(c, addr, size, offset + n)
  }

  lemma {:induction false} SnocRead(out: seq<Piece>, offset: nat, cursor: int, n: nat, c: Config, addr: int, size: int)
    requires c.readChunk > 0 && offset < size && cursor == addr + offset && n == ReadCount(c, cursor, size - offset)
    ensures out + ReadPieces(c, addr, size, offset) == (out + [Piece(offset, cursor, n)]) + ReadPieces(c, addr, size, offset + n)
  {}

  method ReadChunks(c: Config, addr: int, size: int) returns (out: seq<Piece>)
    requires c.readChunk > 0
    ensures out == ReadPieces(c, addr, size, 0)
  {
    out := [];
    var offset := 0;
    while offset < size
      invariant 0 <= offset && out + ReadPieces(c, addr, size, offset) == ReadPieces(c, addr, size, 0)
      decreases size - offset
    {
      var cursor := addr + offset;
      var count := Min(Min(c.readChunk, size - offset), Bank(c) - cursor % Bank(c));
      SnocRead(out, offset, cursor, count, c, addr, size);
      out, offset := out + [Piece(offset, cursor, count)], offset + count;
    }
  }

  lemma {:induction false} SnocWrite(out: seq<Piece>, offset: nat, cursor: int, n: nat, c: Config, addr: int, size: int)
    requires c.page > 0 && offset < size && cursor == addr + offset && n == WriteCount(c, cursor, size - offset)
    ensures out + WritePieces(c, addr, size, offset) == (out + [Piece(offset, cursor, n)]) + WritePieces(c, addr, size, offset + n)
  {}

  method WriteChunks(c: Config, addr: int, size: int) returns (out: seq<Piece>)
    requires c.page > 0
    ensures out == WritePieces(c, addr, size, 0)
  {
    out := [];
    var offset := 0;
    while offset < size
      invariant 0 <= offset && out + WritePieces(c, addr, size, offset) == WritePieces(c, addr, size, 0)
      decreases size - offset
    {
      var cursor := addr + offset;
      var count := Min(c.page - cursor % c.page, size - offset);
      SnocWrite(out, offset, cursor, count, c, addr, size);
      out, offset := out + [Piece(offset, cursor, count)], offset + count;
    }
  }

  function ReadTransfer(c: Config, p: Piece): (t: Transfer)
    requires p.addr >= 0
    ensures |t.dataW| >= c.addrBytes
  {
    Transfer(AddressEncode(c, p.addr).0, AddressEncode(c, p.addr).1, p.count)
  }

  function WriteTransfer(c: Config, p: Piece, data: seq<Byte>): (t: Transfer)
    requires p.addr >= 0 && p.offset + p.count <= |data|
    ensures |t.dataW| >= c.addrBytes
  {
    Transfer(AddressEncode(c, p.addr).0, AddressEncode(c, p.addr).1 + data[p.offset..p.offset + p.count], 0)
  }

  // ----- A flat array ----------------------------------------------------------------------------------

  lemma {:induction false} StartsAt(c: Config, t: Transfer, addr: int)
    requires Started(c) && 0 <= addr < c.total && |t.dataW| >= c.addrBytes
    requires t.saddr == AddressEncode(c, addr).0 && t.dataW[..c.addrBytes] == AddressEncode(c, addr).1
    ensures Addressed(c, t.saddr) && StartOf(c, t) == addr
  {
    EncodeDecodes(c, addr);
  }

  /** One chunk is read without wrapping. */
  lemma {:induction false} ChunkRead(c: Config, m: Memory, p: Piece)
    requires Started(c) && 0 <= p.addr < c.total && p.count <= Bank(c) - p.addr % Bank(c)
    ensures Answer(c, m, ReadTransfer(c, p)) == Peek(m, p.addr, p.count)
  {
    var t := ReadTransfer(c, p);
    assert t.dataW[..c.addrBytes] == AddressEncode(c, p.addr).1;
    StartsAt(c, t, p.addr);
    DivMod(p.addr, Bank(c));
    ReadStraight(m, p.addr - p.addr % Bank(c), Bank(c), p.addr % Bank(c), p.count);
  }

  /** And written. */
  lemma {:induction false} ChunkWritten(c: Config, m: Memory, p: Piece, data: seq<Byte>)
    requires Started(c) && 0 <= p.addr < c.total && p.offset + p.count <= |data| && p.count <= c.page - p.addr % c.page
    ensures After(c, m, WriteTransfer(c, p, data)) == Poke(m, p.addr, data[p.offset..p.offset + p.count])
  {
    var t, chunk := WriteTransfer(c, p, data), data[p.offset..p.offset + p.count];
    assert t.dataW[..c.addrBytes] == AddressEncode(c, p.addr).1 && t.dataW[c.addrBytes..] == chunk;
    StartsAt(c, t, p.addr);
    PageInBank(p.addr, Bank(c), c.page);
    DivMod(p.addr, c.page);
    var low := p.addr % Bank(c);
    WriteStraight(m, p.addr - low + (low - low % c.page), c.page, low % c.page, chunk);
  }

  /** The device after the transfers of a write. */
  function RunWritePieces(c: Config, m: Memory, ps: seq<Piece>, data: seq<Byte>): Memory
    requires c.page > 0 && forall i :: 0 <= i < |ps| ==> ps[i].addr >= 0 && ps[i].offset + ps[i].count <= |data|
    decreases |ps|
  {
    if ps == [] then m else RunWritePieces(c, After(c, m, WriteTransfer(c, ps[0], data)), ps[1..], data)
  }

  lemma {:induction false} WritePiecesIn(c: Config, addr: int, size: int, offset: nat)
    requires c.page > 0 && addr >= 0 && offset <= size
    ensures forall i :: 0 <= i < |WritePieces(c, addr, size, offset)| ==>
      WritePieces(c, addr, size, offset)[i].addr >= 0
      && WritePieces(c, addr, size, offset)[i].offset + WritePieces(c, addr, size, offset)[i].count <= size
    decreases size - offset
  {
    if offset < size {
      WritePiecesIn(c, addr, size, offset + WriteCount(c, addr + offset, size - offset));
    }
  }

  lemma {:induction false} WriteHead(c: Config, addr: int, size: int, offset: nat, ps: seq<Piece>) returns (n: nat)
    requires c.page > 0 && offset < size && ps == WritePieces(c, addr, size, offset)
    ensures 0 < n <= size - offset && n <= c.page - (addr + offset) % c.page
    ensures ps != [] && ps[0] == Piece(offset, addr + offset, n) && ps[1..] == WritePieces(c, addr, size, offset + n)
  {
    n := WriteCount(c, addr + offset, size - offset);
  }

  lemma {:induction false} WriteStep(c: Config, m: Memory, addr: int, data: seq<Byte>, offset: nat, n: nat, ps: seq<Piece>)
    requires Started(c) && addr >= 0 && addr + |data| <= c.total && n > 0 && offset + n <= |data|
    requires n <= c.page - (addr + offset) % c.page && ps != [] && ps[0] == Piece(offset, addr + offset, n)
    requires forall i :: 0 <= i < |ps| ==> ps[i].addr >= 0 && ps[i].offset + ps[i].count <= |data|
    requires RunWritePieces(c, Poke(m, addr + offset, data[offset..offset + n]), ps[1..], data)
          == Poke(Poke(m, addr + offset, data[offset..offset + n]), addr + offset + n, data[offset + n..])
    ensures RunWritePieces(c, m, ps, data) == Poke(m, addr + offset, data[offset..])
  {
    ChunkWritten(c, m, ps[0], data);
    PokeSplit(m, addr + offset, data, offset, n);
  }

  lemma {:induction false} FlatWriteFrom(c: Config, m: Memory, addr: int, data: seq<Byte>, offset: nat, ps: seq<Piece>)
    requires Started(c) && addr >= 0 && addr + |data| <= c.total && offset <= |data|
    requires ps == WritePieces(c, addr, |data|, offset)
    ensures forall i :: 0 <= i < |ps| ==> ps[i].addr >= 0 && ps[i].offset + ps[i].count <= |data|
    ensures RunWritePieces(c, m, ps, data) == Poke(m, addr + offset, data[offset..])
    decreases |data| - offset
  {
    WritePiecesIn(c, addr, |data|, offset);
    if offset < |data| {
      var n := WriteHead(c, addr, |data|, offset, ps);
      FlatWriteFrom(c, Poke(m, addr + offset, data[offset..offset + n]), addr, data, offset + n, ps[1..]);
      WriteStep(c, m, addr, data, offset, n, ps);
    } else {
      assert data[offset..] == [];
    }
  }

  /** Every blob write within the array stores its bytes, as on a flat memory. */
  lemma {:induction false} FlatWrite(c: Config, m: Memory, addr: int, data: seq<Byte>, ps: seq<Piece>, a: int)
    requires Started(c) && addr >= 0 && addr + |data| <= c.total && ps == WritePieces(c, addr, |data|, 0)
    ensures forall i :: 0 <= i < |ps| ==> ps[i].addr >= 0 && ps[i].offset + ps[i].count <= |data|
    ensures RunWritePieces(c, m, ps, data) == Poke(m, addr, data)
    ensures At(RunWritePieces(c, m, ps, data), a) == if addr <= a < addr + |data| then data[a - addr] else At(m, a)
  {
    FlatWriteFrom(c, m, addr, data, 0, ps);
    assert data[0..] == data;
    PokeStores(m, addr, data, a);
  }

  function PartsOf(ps: seq<Piece>): (r: seq<Part>)
    ensures |r| == |ps|
  {
    seq(|ps|, i requires 0 <= i < |ps| => Part(Read(ps[i].addr, ps[i].count), ps[i].offset, ps[i].count))
  }

  lemma {:induction false} ReadPiecesFit(c: Config, addr: int, size: int, offset: nat, ps: seq<Piece>)
    requires Started(c) && addr >= 0 && addr + size <= c.total && ps == ReadPieces(c, addr, size, offset)
    ensures forall k :: 0 <= k < |ps| ==>
      0 <= ps[k].addr < c.total && ps[k].addr == addr + ps[k].offset && ps[k].count <= Bank(c) - ps[k].addr % Bank(c)
    decreases size - offset
  {
    if offset < size {
      ReadPiecesFit(c, addr, size, offset + ReadCount(c, addr + offset, size - offset), ps[1..]);
    }
  }

  lemma {:induction false} ReadPiecesCover(c: Config, addr: int, size: int, offset: nat, i: int, ps: seq<Piece>)
    requires Started(c) && addr >= 0 && addr + size <= c.total && ps == ReadPieces(c, addr, size, offset)
    ensures offset <= i < size ==> Covered(PartsOf(ps), i)
    decreases size - offset
  {
    if offset < size {
      var n := ReadCount(c, addr + offset, size - offset);
      ReadPiecesCover(c, addr, size, offset + n, i, ps[1..]);
      assert PartsOf(ps)[1..] == PartsOf(ps[1..]);
      CoveredTail(PartsOf(ps), i);
    }
  }

  /** Pieces end to end over a range: each as long as the limit, the unit it lies in or the
      range allows. */
  predicate Longest(ps: seq<Piece>, addr: int, offset: nat, size: int, unit: nat, limit: int)
    requires unit > 0
  {
    if ps == [] then offset >= size
    else
      var p := ps[0];
      && p.offset == offset && p.addr == addr + offset && 0 < p.count && offset + p.count <= size
      && p.count <= limit && p.addr % unit + p.count <= unit
      && (p.count == limit || (p.addr + p.count) % unit == 0 || offset + p.count == size)
      && Longest(ps[1..], addr, offset + p.count, size, unit, limit)
  }

  lemma {:induction false} EndsUnit(a: int, n: int, unit: nat)
    requires unit > 0 && a % unit + n == unit
    ensures (a + n) % unit == 0
  {
    DivMod(a, unit);
    DivUnique(a + n, unit, a / unit + 1, 0);
  }

  lemma {:induction false} LongestHead(ps: seq<Piece>, addr: int, offset: nat, size: int, unit: nat, limit: int, n: nat)
    requires unit > 0 && limit > 0 && offset < size && ps != [] && ps[0] == Piece(offset, addr + offset, n)
    requires n == Min(Min(limit, size - offset), unit - (addr + offset) % unit)
    requires Longest(ps[1..], addr, offset + n, size, unit, limit)
    ensures Longest(ps, addr, offset, size, unit, limit)
  {
    if (addr + offset) % unit + n == unit { EndsUnit(addr + offset, n, unit); }
  }

  /** Every read is as long as the limit, its bank or the range allows. */
  lemma {:induction false} ReadPiecesLongest(c: Config, addr: int, size: int, offset: nat, ps: seq<Piece>)
    requires c.readChunk > 0 && ps == ReadPieces(c, addr, size, offset)
    ensures Longest(ps, addr, offset, size, Bank(c), c.readChunk)
    decreases size - offset
  {
    if offset < size {
      var n := ReadCount(c, addr + offset, size - offset);
      ReadPiecesLongest(c, addr, size, offset + n, ps[1..]);
      LongestHead(ps, addr, offset, size, Bank(c), c.readChunk, n);
    }
  }

  /** And every write as long as its page or the range allows. */
  lemma {:induction false} WritePiecesLongest(c: Config, addr: int, size: int, offset: nat, ps: seq<Piece>)
    requires c.page > 0 && ps == WritePieces(c, addr, size, offset)
    ensures Longest(ps, addr, offset, size, c.page, c.page)
    decreases size - offset
  {
    if offset < size {
      var n := WriteCount(c, addr + offset, size - offset);
      WritePiecesLongest(c, addr, size, offset + n, ps[1..]);
      LongestHead(ps, addr, offset, size, c.page, c.page, n);
    }
  }

  /** What the transfers of a read answer. */
  function Answers(c: Config, m: Memory, ps: seq<Piece>): (r: seq<seq<Byte>>)
    requires forall k :: 0 <= k < |ps| ==> ps[k].addr >= 0
    ensures |r| == |ps|
  {
    seq(|ps|, k requires 0 <= k < |ps| => Answer(c, m, ReadTransfer(c, ps[k])))
  }

  lemma {:induction false} AssembleAll(m: Memory, addr: int, size: nat, parts: seq<Part>, raws: seq<seq<Byte>>)
    requires |parts| == |raws| && forall k :: 0 <= k < |parts| ==> Shows(parts[k], raws[k], Image(m, addr))
    requires forall i :: 0 <= i < size ==> Covered(parts, i)
    ensures Assemble(ZeroBytes(size), parts, raws) == Peek(m, addr, size)
  {
    var got := Assemble(ZeroBytes(size), parts, raws);
    forall i | 0 <= i < size ensures got[i] == Peek(m, addr, size)[i] {
      AssembleRight(ZeroBytes(size), parts, raws, Image(m, addr), i);
    }
  }

  /** Every blob read within the array gets its bytes, as from a flat memory. */
  lemma {:induction false} FlatRead(c: Config, m: Memory, addr: int, size: nat, ps: seq<Piece>)
    requires Started(c) && addr >= 0 && addr + size <= c.total && ps == ReadPieces(c, addr, size, 0)
    ensures forall k :: 0 <= k < |ps| ==> ps[k].addr >= 0
    ensures Assemble(ZeroBytes(size), PartsOf(ps), Answers(c, m, ps)) == Peek(m, addr, size)
  {
    ReadPiecesFit(c, addr, size, 0, ps);
    forall k | 0 <= k < |ps| ensures Shows(PartsOf(ps)[k], Answers(c, m, ps)[k], Image(m, addr)) {
      ChunkRead(c, m, ps[k]);
    }
    forall i | 0 <= i < size ensures Covered(PartsOf(ps), i) { ReadPiecesCover(c, addr, size, 0, i, ps); }
    AssembleAll(m, addr, size, PartsOf(ps), Answers(c, m, ps));
  }

  // ----- Lowering ------------------------------------------------------------------------------------------

  /** A list of transfers on the device. */
  function RunTransfers(c: Config, m: Memory, ts: seq<Transfer>): Memory
    requires c.page > 0 && forall i :: 0 <= i < |ts| ==> |ts[i].dataW| >= c.addrBytes
    decreases |ts|
  {
    if ts == [] then m else RunTransfers(c, After(c, m, ts[0]), ts[1..])
  }

  function WriteTransfers(c: Config, ps: seq<Piece>, data: seq<Byte>): (ts: seq<Transfer>)
    requires forall i :: 0 <= i < |ps| ==> ps[i].addr >= 0 && ps[i].offset + ps[i].count <= |data|
    ensures |ts| == |ps| && forall i :: 0 <= i < |ts| ==> |ts[i].dataW| >= c.addrBytes
  {
    seq(|ps|, i requires 0 <= i < |ps| => WriteTransfer(c, ps[i], data))
  }

  lemma {:induction false} TransfersArePieces(c: Config, m: Memory, ps: seq<Piece>, data: seq<Byte>)
    requires c.page > 0 && forall i :: 0 <= i < |ps| ==> ps[i].addr >= 0 && ps[i].offset + ps[i].count <= |data|
    ensures RunTransfers(c, m, WriteTransfers(c, ps, data)) == RunWritePieces(c, m, ps, data)
    decreases |ps|
  {
    if ps != [] {
      assert WriteTransfers(c, ps, data)[1..] == WriteTransfers(c, ps[1..], data);
      TransfersArePieces(c, After(c, m, WriteTransfer(c, ps[0], data)), ps[1..], data);
    }
  }

  /** A write outside the array is refused; any other becomes transfers that
      store it on whatever the device holds. */
  method LowerWrite(c: Config, addr: int, data: seq<Byte>) returns (r: Option<seq<Transfer>>)
    requires Started(c)
    ensures r.Some? <==> 0 <= addr && addr + |data| <= c.total
    ensures r.Some? ==> forall i :: 0 <= i < |r.value| ==> |r.value[i].dataW| >= c.addrBytes
    ensures r.Some? ==> forall m :: RunTransfers(c, m, r.value) == Poke(m, addr, data)
  {
    if addr < 0 || addr + |data| > c.total {
      return None;
    }
    var ps := WriteChunks(c, addr, |data|);
    WritePiecesIn(c, addr, |data|, 0);
    r := Some(WriteTransfers(c, ps, data));
    forall m ensures RunTransfers(c, m, r.value) == Poke(m, addr, data) {
      FlatWrite(c, m, addr, data, ps, addr);
      TransfersArePieces(c, m, ps, data);
    }
  }

  /** A read outside the array is refused; the answers to any other are put
      together to its bytes. */
  method LowerRead(c: Config, addr: int, size: int) returns (r: Option<seq<Piece>>)
    requires Started(c)
    ensures r.Some? <==> 0 <= addr && 0 <= size && addr + size <= c.total
    ensures r.Some? ==> forall k :: 0 <= k < |r.value| ==> r.value[k].addr >= 0
    ensures r.Some? ==> forall m :: Assemble(ZeroBytes(size), PartsOf(r.value), Answers(c, m, r.value)) == Peek(m, addr, size)
  {
    if addr < 0 || size < 0 || addr + size > c.total {
      return None;
    }
    var ps := ReadChunks(c, addr, size);
    ReadPiecesFit(c, addr, size, 0, ps);
    r := Some(ps);
    forall m ensures Assemble(ZeroBytes(size), PartsOf(ps), Answers(c, m, ps)) == Peek(m, addr, size) {
      FlatRead(c, m, addr, size, ps);
    }
  }
}
