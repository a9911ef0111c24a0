/** The lookup service: IPv4 and IPv6 addresses walked bit by bit through one of three storages. */
module GeoIpLookup {
  import opened Wrappers
  import opened Arithmetic
  import opened GeoIpTrie
  import GeoIpLayout

  // ---------- addresses ----------

  /** The bit of weight 2^d of a number that is not negative. */
  predicate Bit(x: nat, d: nat) { if d == 0 then x % 2 == 1 else Bit(x / 2, d - 1) }

  /** The k-th bit of an address given as bytes, counted from the first. */
  predicate ByteBit(a: seq<byte>, k: nat)
    requires k < 8 * |a|
  {
    Bit(a[k / 8], 7 - k % 8)
  }

  /** The bits of an address, most significant first. */
  function BytesBits(a: seq<byte>): (r: seq<bool>)
    ensures |r| == 8 * |a|
  {
    seq(8 * |a|, k requires 0 <= k < 8 * |a| => ByteBit(a, k))
  }

  /**
   * The bits of an IPv4 address held in a long below 2^32, most significant first. The int mask
   * `1 << 31` is sign-extended to a long, which such an address does not notice.
   */
  function LongBits(ip: nat): (r: seq<bool>)
    ensures |r| == 32
  {
    seq(32, k requires 0 <= k < 32 => Bit(ip, 31 - k))
  }

  method BytesToLong(address: seq<byte>) returns (ipnum: nat)
    requires |address| >= 4
    ensures ipnum < 0x1_0000_0000 && LongBits(ipnum) == BytesBits(address[..4])
  {
    hide LongBits, BytesBits;
    ipnum := 0;
    for i := 0 to 4
      invariant ipnum == BigEndian(address[..i]) * Pow256(4 - i)
    {
      assert address[..i + 1][..i] == address[..i];
      Shift(BigEndian(address[..i]), address[i], Pow256(3 - i));
      ipnum := ipnum + address[i] * Pow256(3 - i);
    }
    BigEndianBound(address[..4]);
    LongBitsAreBytesBits(address[..4]);
  }

  function BigEndian(a: seq<byte>): nat {
    if a == [] then 0 else 256 * BigEndian(a[..|a| - 1]) + a[|a| - 1]
  }

  lemma {:induction false} Shift(x: int, y: int, p: int)
    ensures x * (256 * p) + y * p == (256 * x + y) * p
  {
  }

  lemma {:induction false} BigEndianBound(a: seq<byte>)
    ensures BigEndian(a) < Pow256(|a|)
  {
    if a != [] { BigEndianBound(a[..|a| - 1]); }
  }

  /** Bits below 2^n do not see multiples of 2^n. */
  lemma {:induction false} LowBits(t: nat, b: nat, n: nat, m: nat)
    requires m < n
    ensures Bit(Pow2(n) * t + b, m) == Bit(b, m)
  {
    var p := Pow2(n - 1) * t;
    assert Pow2(n) * t + b == 2 * p + b by { Double(Pow2(n - 1), t); }
    assert (2 * p + b) / 2 == p + b / 2;
    if m > 0 { LowBits(t, b / 2, n - 1, m - 1); }
  }

  lemma {:induction false} Double(p: nat, t: nat)
    ensures (2 * p) * t == 2 * (p * t)
  {
  }

  /** Bits from 2^8 on are those of the number without its last byte. */
  lemma {:induction false} HighBits(x: nat, b: byte, d: nat)
    ensures Bit(256 * x + b, d + 8) == Bit(x, d)
  {
    Halve(x, b, d + 8, 8);
  }

  lemma {:induction false} Halve(x: nat, b: nat, d: nat, n: nat)
    requires n <= d && b < Pow2(n)
    ensures Bit(Pow2(n) * x + b, d) == Bit(x, d - n)
  {
    if n > 0 {
      var p := Pow2(n - 1) * x;
      assert Pow2(n) * x + b == 2 * p + b by { Double(Pow2(n - 1), x); }
      assert (2 * p + b) / 2 == p + b / 2;
      Halve(x, b / 2, d - 1, n - 1);
    }
  }

  lemma {:induction false} Pow2Of8()
    ensures Pow2(8) == 256
  {
    assert Pow2(2) == 4 && Pow2(4) == 16 && Pow2(6) == 64;
  }

  /** The bits of a big-endian number are the bits of its bytes, most significant first. */
  lemma {:induction false} BigEndianBit(a: seq<byte>, k: nat)
    requires k < 8 * |a|
    ensures Bit(BigEndian(a), 8 * |a| - 1 - k) == ByteBit(a, k)
  {
    hide Bit;
    var n := |a| - 1;
    var (x, b) := (BigEndian(a[..n]), a[n]);
    if k < 8 * n {
      HighBits(x, b, 8 * n - 1 - k);
      BigEndianBit(a[..n], k);
    } else {
      Pow2Of8();
      LowBits(x, b, 8, 7 - k % 8);
    }
  }

  /** The bits tested in the long are the bits of the address's bytes. */
  lemma {:induction false} LongBitsAreBytesBits(a: seq<byte>)
    requires |a| == 4
    ensures LongBits(BigEndian(a)) == BytesBits(a)
  {
    hide Bit, BigEndian, ByteBit;
    forall k | 0 <= k < 32 ensures Bit(BigEndian(a), 31 - k) == ByteBit(a, k) {
      BigEndianBit(a, k);
    }
  }

  /** The number that bits spell, the most significant first. */
  function Spelled(bits: seq<bool>): nat {
    if bits == [] then 0 else 2 * Spelled(bits[..|bits| - 1]) + if bits[|bits| - 1] then 1 else 0
  }

  /** The n lowest bits of a number, the most significant first. */
  function LowestBits(x: nat, n: nat): (r: seq<bool>)
    ensures |r| == n
  {
    seq(n, k requires 0 <= k < n => Bit(x, n - 1 - k))
  }

  lemma {:induction false} LowestBitsSpell(x: nat, n: nat)
    requires x < Pow2(n)
    ensures Spelled(LowestBits(x, n)) == x
  {
    if n > 0 {
      LowestBitsSpell(x / 2, n - 1);
      LowestBitsHalve(x, n);
    }
  }

  lemma {:induction false} LowestBitsHalve(x: nat, n: nat)
    requires n > 0
    ensures LowestBits(x, n)[..n - 1] == LowestBits(x / 2, n - 1) && LowestBits(x, n)[n - 1] == (x % 2 == 1)
  {
    hide Bit;
    var (bits, half) := (LowestBits(x, n), LowestBits(x / 2, n - 1));
    forall k: nat | k < n - 1 ensures bits[k] == half[k] { BitOfHalf(x, n - 1 - k); }
    LowestBit(x);
  }

  lemma {:induction false} BitOfHalf(x: nat, d: nat)
    requires d > 0
    ensures Bit(x, d) == Bit(x / 2, d - 1)
  {
  }

  lemma {:induction false} LowestBit(x: nat)
    ensures Bit(x, 0) == (x % 2 == 1)
  {
  }

  /** The bits tested in the long spell the address, from its highest bit to its lowest. */
  lemma {:induction false} LongBitsSpell(ip: nat)
    requires ip < 0x1_0000_0000
    ensures Spelled(LongBits(ip)) == ip
  {
    hide Bit, Spelled;
    Pow2Of8();
    Pow2Of32();
    LowestBitsSpell(ip, 32);
    assert LongBits(ip) == LowestBits(ip, 32);
  }

  /** The bits tested in a byte array spell its bytes, from the highest bit of the first byte on. */
  lemma {:induction false} BytesBitsSpell(a: seq<byte>, i: nat)
    requires i < |a|
    ensures Spelled(BytesBits(a)[8 * i..8 * i + 8]) == a[i]
  {
    hide Bit, Spelled;
    Pow2Of8();
    LowestBitsSpell(a[i], 8);
    var (bits, eight) := (BytesBits(a)[8 * i..8 * i + 8], LowestBits(a[i], 8));
    forall k | 0 <= k < 8 ensures bits[k] == eight[k] { assert (8 * i + k) / 8 == i && (8 * i + k) % 8 == k; }
    assert bits == eight;
  }

  lemma {:induction false} Pow2Of32()
    ensures Pow2(32) == 0x1_0000_0000
  {
    assert Pow2(8) == 256 by { Pow2Of8(); }
    assert Pow2(12) == 4096 && Pow2(16) == 65536 && Pow2(20) == 0x10_0000;
    assert Pow2(24) == 0x100_0000 && Pow2(28) == 0x1000_0000;
  }

  // ---------- records ----------

  function Pow256(j: nat): nat { if j == 0 then 1 else 256 * Pow256(j - 1) }

  lemma {:induction false} LittleEndianSnoc(s: seq<byte>, b: byte)
    ensures LittleEndian(s + [b]) == LittleEndian(s) + b * Pow256(|s|)
  {
    if s == [] {
      assert [] + [b] == [b] && [b][1..] == [];
    } else {
      assert (s + [b])[1..] == s[1..] + [b];
      LittleEndianSnoc(s[1..], b);
      Distribute(LittleEndian(s[1..]), b, Pow256(|s| - 1));
    }
  }

  lemma {:induction false} Distribute(x: int, y: int, z: int)
    ensures 256 * (x + y * z) == 256 * x + y * (256 * z)
  {
  }

  lemma {:induction false} WrapAdd(x: int, y: int)
    ensures Wrap32(Wrap32(x) + Wrap32(y)) == Wrap32(x + y)
  {
    var (a, b) := ((x + 0x8000_0000) / 0x1_0000_0000, (y + 0x8000_0000) / 0x1_0000_0000);
    assert Wrap32(x) == x - 0x1_0000_0000 * a && Wrap32(y) == y - 0x1_0000_0000 * b;
    WrapTurns(x + y, a + b);
  }

  lemma {:induction false} WrapTurns(x: int, k: int)
    ensures Wrap32(x - 0x1_0000_0000 * k) == Wrap32(x)
  {
    var r := Wrap32(x);
    var q := (x + 0x8000_0000) / 0x1_0000_0000 - k;
    assert x - 0x1_0000_0000 * k + 0x8000_0000 == 0x1_0000_0000 * q + (r + 0x8000_0000);
  }

  // ---------- the service ----------

  datatype LookupResult = Value(x: int) | IndexOutOfBounds

  datatype IOException = StreamClosed | EndOfFile

  class LookupService {
    /** The database file and what its structure information says. */
    const db: Database
    const memoryCache: bool
    const indexCacheOn: bool
    const dbbuffer: array<byte>
    const index_cache: array<byte>
    var last_netmask: int

    /** The memory buffer goes before the index cache, and both before the disk. */
    function Storage(): (s: Storage)
      ensures s == Memory <==> memoryCache
      ensures s == Disk <==> !memoryCache && !indexCacheOn
    {
      if memoryCache then Memory else if indexCacheOn then IndexCache else Disk
    }

    ghost predicate Valid()
      reads dbbuffer, index_cache
    {
      && db.Valid()
      && (memoryCache ==> dbbuffer[..] == db.file)
      && (indexCacheOn ==> index_cache[..] == Stored(db, IndexCache) && db.segments * db.recordLength * 2 <= |db.file|)
    }

    constructor (db: Database, memoryCache: bool, indexCacheOn: bool, dbbuffer: array<byte>, index_cache: array<byte>)
      ensures this.db == db && this.memoryCache == memoryCache && this.indexCacheOn == indexCacheOn
      ensures this.dbbuffer == dbbuffer && this.index_cache == index_cache
    {
      this.db, this.memoryCache, this.indexCacheOn, last_netmask := db, memoryCache, indexCacheOn, 0;
      this.dbbuffer, this.index_cache := dbbuffer, index_cache;
    }

    /**
     * Opens a database and fills the buffers. It fails exactly if the index cache is asked for and the
     * file is too short for it, or was closed after filling the memory buffer.
     */
    static method Open(db: Database, memoryCache: bool, indexCacheOn: bool)
      returns (r: Result<LookupService, IOException>)
      requires db.Valid()
      ensures r.Error? <==> indexCacheOn && (memoryCache || db.segments * db.recordLength * 2 > |db.file|)
      ensures r.Success? ==>
                var service := r.value;
                && fresh(service) && fresh(service.dbbuffer) && fresh(service.index_cache) && service.Valid()
                && service.db == db && service.memoryCache == memoryCache && service.indexCacheOn == indexCacheOn
    {
      var dbbuffer, index_cache := new byte[0], new byte[0];
      var closed := false;
      if memoryCache {
        dbbuffer := ReadFully(db.file, |db.file|);
        closed := true;
      }
      if indexCacheOn {
        var l := db.segments * db.recordLength * 2;
        if closed { return Error(StreamClosed); }
        if l > |db.file| { return Error(EndOfFile); }
        index_cache := ReadFully(db.file, l);
      }
      var service := new LookupService(db, memoryCache, indexCacheOn, dbbuffer, index_cache);
      return Success(service);
    }

    /** Reads the first bytes of a file into an array of their own. */
    static method ReadFully(file: seq<byte>, l: nat) returns (buffer: array<byte>)
      requires l <= |file|
      ensures fresh(buffer) && buffer[..] == file[..l]
    {
      buffer := new byte[l](i requires 0 <= i < l => file[i]);
    }

    /** Copies a whole window out of a buffer, byte by byte. */
    method CopyWindow(source: array<byte>, position: int, buf: array<byte>) returns (ok: bool)
      requires buf.Length == WINDOW && buf != source
      modifies buf
      ensures ok <==> 0 <= position && position + WINDOW <= source.Length
      ensures ok ==> buf[..] == source[position..position + WINDOW]
    {
      for i := 0 to WINDOW
        invariant i > 0 ==> 0 <= position && position + i <= source.Length
        invariant forall j | 0 <= j < i :: buf[j] == source[position + j]
      {
        if !(0 <= position + i < source.Length) {
          return false;
        }
        buf[i] := source[position + i];
      }
      return true;
    }

    /** Reads a window from the file; an I/O error leaves what could not be read as it was. */
    method ReadFile(position: int, buf: array<byte>)
      requires buf.Length == WINDOW && (buf != dbbuffer && buf != index_cache)
      modifies buf
      ensures buf[..] ==
              if 0 <= position && position + WINDOW <= |db.file| then db.file[position..position + WINDOW]
              else if 0 <= position <= |db.file| then db.file[position..] + old(buf[..])[|db.file| - position..]
              else old(buf[..])
    {
      if 0 <= position {
        var i := 0;
        while i < WINDOW && position + i < |db.file|
          invariant 0 <= i <= WINDOW && (i > 0 ==> position + i <= |db.file|)
          invariant forall j | 0 <= j < i :: buf[j] == db.file[position + j]
          invariant forall j | i <= j < WINDOW :: buf[j] == old(buf[j])
        {
          buf[i] := db.file[position + i];
          i := i + 1;
        }
      }
    }

    /** Fetches the window of a node from the storage in use. */
    method ReadNode(offset: int, buf: array<byte>) returns (ok: bool)
      requires Valid() && buf.Length == WINDOW && buf != dbbuffer && buf != index_cache
      modifies buf
      ensures Valid()
      ensures Fetch(db, Storage(), old(buf[..]), offset) == if ok then Window(buf[..]) else OutOfBounds
    {
      var position := db.Position(offset);
      if memoryCache {
        ok := CopyWindow(dbbuffer, position, buf);
      } else if indexCacheOn {
        ok := CopyWindow(index_cache, position, buf);
      } else {
        ReadFile(position, buf);
        ok := true;
      }
    }

    /** The two records of a window. */
    method Children(buf: array<byte>) returns (x: array<int>)
      requires db.Valid() && buf.Length == WINDOW
      ensures fresh(x) && x.Length == 2
      ensures x[0] == Record(db, buf[..], false) && x[1] == Record(db, buf[..], true)
      ensures db.recordLength == 3 ==>
                && x[0] == GeoIpLayout.ThreeByteInt(buf[0], buf[1], buf[2])
                && x[1] == GeoIpLayout.ThreeByteInt(buf[3], buf[4], buf[5])
      ensures db.recordLength == 4 ==>
                && x[0] == GeoIpLayout.FourByteInt(buf[0], buf[1], buf[2], buf[3])
                && x[1] == GeoIpLayout.FourByteInt(buf[4], buf[5], buf[6], buf[7])
    {
      hide Wrap32, LittleEndian, GeoIpLayout.ThreeByteInt, GeoIpLayout.FourByteInt;
      x := new int[2];
      for i := 0 to 2
        invariant forall k | 0 <= k < i :: x[k] == Record(db, buf[..], k == 1)
      {
        ghost var at := i * db.recordLength;
        x[i] := 0;
        NoDigits();
        assert buf[..][at..at + 0] == [];
        for j := 0 to db.recordLength
          invariant x[i] == Wrap32(LittleEndian(buf[..][at..at + j]))
          invariant forall k | 0 <= k < i :: x[k] == Record(db, buf[..], k == 1)
        {
          var y := buf[i * db.recordLength + j];
          assert buf[..][at..at + (j + 1)] == buf[..][at..at + j] + [buf[at + j]];
          LittleEndianSnoc(buf[..][at..at + j], buf[at + j]);
          WrapAdd(LittleEndian(buf[..][at..at + j]), y * Pow256(j));
          x[i] := Wrap32(x[i] + Wrap32(y * Pow256(j)));
        }
      }
      GeoIpLayout.RecordBytes(db, buf[..]);
    }

    /** Looks up an IPv6 address of 16 bytes. */
    method SeekCountryV6(v6vec: seq<byte>) returns (r: LookupResult)
      requires Valid() && |v6vec| == 16
      modifies this`last_netmask
      ensures Valid()
      ensures match Seek(db, Storage(), BytesBits(v6vec), 0, 0, seq(WINDOW, _ => 0))
              case Found(v, n) => r == Value(v) && last_netmask == n
              case Exhausted => r == Value(0) && last_netmask == old(last_netmask)
              case Crashed => r == IndexOutOfBounds && last_netmask == old(last_netmask)
    {
      hide Fetch, Record, GeoIpLayout.ThreeByteInt, GeoIpLayout.FourByteInt;
      var buf := new byte[WINDOW](_ => 0);
      var offset := 0;
      ghost var bits := BytesBits(v6vec);
      assert buf[..] == seq(WINDOW, _ => 0);
      for depth := 128 downto 0
        invariant Valid() && fresh(buf) && last_netmask == old(last_netmask)
        invariant Seek(db, Storage(), bits, 0, 0, seq(WINDOW, _ => 0))
                  == Seek(db, Storage(), bits, 128 - depth, offset, buf[..])
      {
        var ok := ReadNode(offset, buf);
        if !ok { return IndexOutOfBounds; }
        var x := Children(buf);
        var bnum := 127 - depth;
        if ByteBit(v6vec, bnum) {
          if x[1] >= db.segments {
            last_netmask := 128 - depth;
            return Value(x[1]);
          }
          offset := x[1];
        } else {
          if x[0] >= db.segments {
            last_netmask := 128 - depth;
            return Value(x[0]);
          }
          offset := x[0];
        }
      }
      return Value(0);
    }

    /** Looks up an IPv4 address given as a long. */
    method SeekCountry(ipAddress: nat) returns (r: LookupResult)
      requires Valid() && ipAddress < 0x1_0000_0000
      modifies this`last_netmask
      ensures Valid()
      ensures match Seek(db, Storage(), LongBits(ipAddress), 0, 0, seq(WINDOW, _ => 0))
              case Found(v, n) => r == Value(v) && last_netmask == n
              case Exhausted => r == Value(0) && last_netmask == old(last_netmask)
              case Crashed => r == IndexOutOfBounds && last_netmask == old(last_netmask)
    {
      hide Fetch, Record, Bit, LongBits, GeoIpLayout.ThreeByteInt, GeoIpLayout.FourByteInt;
      var buf := new byte[WINDOW](_ => 0);
      var offset := 0;
      ghost var bits := LongBits(ipAddress);
      assert buf[..] == seq(WINDOW, _ => 0);
      for depth := 32 downto 0
        invariant Valid() && fresh(buf) && last_netmask == old(last_netmask)
        invariant Seek(db, Storage(), bits, 0, 0, seq(WINDOW, _ => 0))
                  == Seek(db, Storage(), bits, 32 - depth, offset, buf[..])
      {
        var ok := ReadNode(offset, buf);
        if !ok { return IndexOutOfBounds; }
        var x := Children(buf);
        BitOfLong(ipAddress, 31 - depth);
        if Bit(ipAddress, depth) {
          if x[1] >= db.segments {
            last_netmask := 32 - depth;
            return Value(x[1]);
          }
          offset := x[1];
        } else {
          if x[0] >= db.segments {
            last_netmask := 32 - depth;
            return Value(x[0]);
          }
          offset := x[0];
        }
      }
      return Value(0);
    }
  }

  lemma {:induction false} BitOfLong(ip: nat, k: nat)
    requires k < 32
    ensures LongBits(ip)[k] == Bit(ip, 31 - k)
  {
    hide Bit;
  }

  lemma {:induction false} NoDigits()
    ensures Wrap32(LittleEndian([])) == 0
  {
  }
}
