/** The binary trie of a GeoIP database: one abstract walk, and the walks over its three storages. */
module GeoIpTrie {
  import opened Arithmetic

  /** A Java byte, read as unsigned. */
  type byte = x: int | 0 <= x < 256

  /** Bytes fetched at a time, two records of the longest kind. */
  const WINDOW := 8

  /** Bytes read as unsigned digits to base 256, the least significant first. */
  function LittleEndian(s: seq<byte>): (r: nat) {
    if s == [] then 0 else s[0] + 256 * LittleEndian(s[1..])
  }

  /** The parts of a database that lookups depend on. */
  datatype Database = Database(file: seq<byte>, segments: nat, recordLength: nat) {
    ghost predicate Valid() { 3 <= recordLength <= 4 && segments < 0x100_0000 }

    /** Where a node's two records start, in int arithmetic. */
    function Position(offset: int): int { Wrap32(2 * recordLength * offset) }
  }

  /** One of the two records at the start of a window, as an int. */
  function Record(db: Database, window: seq<byte>, right: bool): int
    requires db.Valid() && 2 * db.recordLength <= |window|
  {
    var at := if right then db.recordLength else 0;
    Wrap32(LittleEndian(window[at..at + db.recordLength]))
  }

  // ---------- the abstract walk ----------

  datatype Answer =
    | Found(value: int, netmask: nat)  // a leaf, and how many bits led to it
    | Exhausted                        // the address ran out first
    | Crashed                          // a node outside the storage

  /** The child of a node, if both its records are in the file. */
  function Child(db: Database, offset: int, right: bool): (r: int)
    requires db.Valid() && HasNode(db, offset)
  {
    Record(db, db.file[db.Position(offset)..db.Position(offset) + 2 * db.recordLength], right)
  }

  predicate HasNode(db: Database, offset: int) {
    0 <= db.Position(offset) <= |db.file| - 2 * db.recordLength
  }

  /** Walks down from a node by the bits from `k` on; a value of at least `segments` is a leaf. */
  function Walk(db: Database, bits: seq<bool>, k: nat, offset: int): Answer
    requires db.Valid() && k <= |bits|
    decreases |bits| - k
  {
    if k == |bits| then Exhausted
    else if !HasNode(db, offset) then Crashed
    else
      var x := Child(db, offset, bits[k]);
      if x >= db.segments then Found(x, k + 1) else Walk(db, bits, k + 1, x)
  }

  /** The nodes the walk reads. */
  ghost predicate Visits(db: Database, bits: seq<bool>, k: nat, offset: int, node: int)
    requires db.Valid() && k <= |bits|
    decreases |bits| - k
  {
    && k < |bits|
    && (node == offset
        || (HasNode(db, offset) && Child(db, offset, bits[k]) < db.segments
            && Visits(db, bits, k + 1, Child(db, offset, bits[k]), node)))
  }

  /** A leaf's value is at least `segments`; its netmask counts the bits used, at least one. */
  lemma {:induction false} FoundIsLeaf(db: Database, bits: seq<bool>, k: nat, offset: int)
    requires db.Valid() && k <= |bits| && Walk(db, bits, k, offset).Found?
    ensures var r := Walk(db, bits, k, offset); r.value >= db.segments && k < r.netmask <= |bits|
    decreases |bits| - k
  {
    hide Child;
    var x := Child(db, offset, bits[k]);
    if x < db.segments { FoundIsLeaf(db, bits, k + 1, x); }
  }

  /** Every node the walk goes on to lies below `segments`. */
  lemma {:induction false} VisitedBelowSegments(db: Database, bits: seq<bool>, k: nat, offset: int, node: int)
    requires db.Valid() && k <= |bits| && Visits(db, bits, k, offset, node)
    ensures node == offset || node < db.segments
    decreases |bits| - k
  {
    hide Child;
    if node != offset {
      VisitedBelowSegments(db, bits, k + 1, Child(db, offset, bits[k]), node);
    }
  }

  /**
   * The walk is a prefix map: every address that starts with the bits that led to a leaf gets the
   * same value and the same netmask.
   */
  lemma {:induction false} PrefixMap(db: Database, bits: seq<bool>, bits': seq<bool>, k: nat, offset: int)
    requires db.Valid() && k <= |bits| && Walk(db, bits, k, offset).Found?
    requires var n := Walk(db, bits, k, offset).netmask; n <= |bits| && n <= |bits'| && bits[..n] == bits'[..n]
    requires k <= |bits'|
    ensures Walk(db, bits', k, offset) == Walk(db, bits, k, offset)
    decreases |bits| - k
  {
    hide Child;
    var n := Walk(db, bits, k, offset).netmask;
    FoundIsLeaf(db, bits, k, offset);
    assert bits[..n][k] == bits'[..n][k];
    var x := Child(db, offset, bits[k]);
    if x < db.segments { PrefixMap(db, bits, bits', k + 1, x); }
  }

  // ---------- the three storages ----------

  datatype Storage = Memory | IndexCache | Disk

  /** What the storage holds; the index cache covers the nodes below `segments`. */
  function Stored(db: Database, storage: Storage): seq<byte> {
    if storage.IndexCache? then
      var l := db.segments * db.recordLength * 2;
      db.file[..if l <= |db.file| then l else |db.file|]
    else db.file
  }

  datatype Fetched = Window(bytes: seq<byte>) | OutOfBounds

  /**
   * Fetches a node's window over the previous one. Arrays are read in whole windows or not at all.
   * Reading from disk leaves in place whatever it cannot replace: all of it when the position is
   * negative, the end of it when the file ends first.
   */
  function Fetch(db: Database, storage: Storage, buf: seq<byte>, offset: int): (r: Fetched)
    requires |buf| == WINDOW
    ensures r.Window? ==> |r.bytes| == WINDOW
  {
    var (s, p) := (Stored(db, storage), db.Position(offset));
    if 0 <= p && p + WINDOW <= |s| then Window(s[p..p + WINDOW])
    else if !storage.Disk? then OutOfBounds
    else if 0 <= p <= |s| then Window(s[p..] + buf[|s| - p..])
    else Window(buf)
  }

  /** Byte by byte: arrays give whole windows, and the disk every byte it has, the rest staying as it was. */
  lemma {:induction false} FetchReads(db: Database, storage: Storage, buf: seq<byte>, offset: int)
    requires |buf| == WINDOW
    ensures var (s, p, r) := (Stored(db, storage), db.Position(offset), Fetch(db, storage, buf, offset));
            && (r == OutOfBounds <==> storage != Disk && !(0 <= p && p + 8 <= |s|))
            && (r != OutOfBounds ==>
                  forall j | 0 <= j < 8 :: r.bytes[j] == if 0 <= p && p + j < |s| then s[p + j] else buf[j])
  {
  }

  /** The lookup as the service does it, window by window. */
  function Seek(db: Database, storage: Storage, bits: seq<bool>, k: nat, offset: int, buf: seq<byte>): Answer
    requires db.Valid() && k <= |bits| && |buf| == WINDOW
    decreases |bits| - k
  {
    if k == |bits| then Exhausted
    else match Fetch(db, storage, buf, offset)
      case OutOfBounds => Crashed
      case Window(w) =>
        var x := Record(db, w, bits[k]);
        if x >= db.segments then Found(x, k + 1) else Seek(db, storage, bits, k + 1, x, w)
  }

  /** A window that holds a node's records shows the node's children. */
  lemma {:induction false} WindowChild(db: Database, w: seq<byte>, offset: int, right: bool)
    requires db.Valid() && HasNode(db, offset) && |w| == WINDOW
    requires var p := db.Position(offset); w[..2 * db.recordLength] == db.file[p..p + 2 * db.recordLength]
    ensures Record(db, w, right) == Child(db, offset, right)
  {
    var (p, n) := (db.Position(offset), 2 * db.recordLength);
    var at := if right then db.recordLength else 0;
    assert w[..n][at..at + db.recordLength] == w[at..at + db.recordLength];
  }

  /** A whole window inside the storage starts with the node's records. */
  lemma {:induction false} WindowInside(db: Database, storage: Storage, buf: seq<byte>, offset: int)
    requires db.Valid() && |buf| == WINDOW
    requires var p := db.Position(offset); 0 <= p && p + WINDOW <= |Stored(db, storage)|
    ensures HasNode(db, offset) && Fetch(db, storage, buf, offset).Window?
    ensures forall right: bool :: Record(db, Fetch(db, storage, buf, offset).bytes, right) == Child(db, offset, right)
  {
    hide Record, Child, Database.Position, Stored;
    var (s, p, n) := (Stored(db, storage), db.Position(offset), 2 * db.recordLength);
    StoredIsFile(db, storage);
    var w := Fetch(db, storage, buf, offset).bytes;
    FrontOf(s, db.file, p, n);
    WindowChild(db, w, offset, false);
    WindowChild(db, w, offset, true);
  }

  lemma {:induction false} StoredIsFile(db: Database, storage: Storage)
    ensures Stored(db, storage) <= db.file
  {
  }

  lemma {:induction false} FrontOf(s: seq<byte>, file: seq<byte>, p: nat, n: nat)
    requires s <= file && n <= WINDOW && p + WINDOW <= |s|
    ensures s[p..p + WINDOW][..n] == file[p..p + n]
  {
    var (x, y) := (s[p..p + WINDOW][..n], file[p..p + n]);
    assert |x| == |y| && forall k | 0 <= k < n :: x[k] == y[k];
  }

  /** On disk both records are enough: the rest of the window is never looked at. */
  lemma {:induction false} DiskWindow(db: Database, buf: seq<byte>, offset: int)
    requires db.Valid() && |buf| == WINDOW && HasNode(db, offset)
    ensures Fetch(db, Disk, buf, offset).Window?
    ensures forall right: bool :: Record(db, Fetch(db, Disk, buf, offset).bytes, right) == Child(db, offset, right)
  {
    hide Record, Child;
    var (p, n) := (db.Position(offset), 2 * db.recordLength);
    var w := Fetch(db, Disk, buf, offset).bytes;
    assert w[..n] == db.file[p..p + n];
    WindowChild(db, w, offset, false);
    WindowChild(db, w, offset, true);
  }

  /** The storage holds a node's whole window. */
  predicate HasWindow(db: Database, storage: Storage, node: int) {
    0 <= db.Position(node) <= |Stored(db, storage)| - WINDOW
  }

  /** The walk reads a node whose window the storage does not hold. */
  ghost predicate MissesWindow(db: Database, storage: Storage, bits: seq<bool>, k: nat, offset: int)
    requires db.Valid() && k <= |bits|
  {
    exists node :: Visits(db, bits, k, offset, node) && !HasWindow(db, storage, node)
  }

  lemma {:induction false} MissesHere(db: Database, storage: Storage, bits: seq<bool>, k: nat, offset: int)
    requires db.Valid() && k <= |bits|
    ensures k == |bits| ==> !MissesWindow(db, storage, bits, k, offset)
    ensures k < |bits| && !HasWindow(db, storage, offset) ==> MissesWindow(db, storage, bits, k, offset)
  {
    hide HasWindow, Child, HasNode;
    if k < |bits| { assert Visits(db, bits, k, offset, offset); }
  }

  lemma {:induction false} MissesAhead(db: Database, storage: Storage, bits: seq<bool>, k: nat, offset: int)
    requires db.Valid() && k < |bits| && HasNode(db, offset) && HasWindow(db, storage, offset)
    ensures var x := Child(db, offset, bits[k]);
            MissesWindow(db, storage, bits, k, offset)
            <==> x < db.segments && MissesWindow(db, storage, bits, k + 1, x)
  {
    hide HasWindow, Child, HasNode;
    var (x, k1) := (Child(db, offset, bits[k]), k + 1);
    if x < db.segments && MissesWindow(db, storage, bits, k1, x) {
      var node :| Visits(db, bits, k1, x, node) && !HasWindow(db, storage, node);
      assert Visits(db, bits, k, offset, node);
    }
    if MissesWindow(db, storage, bits, k, offset) {
      var node :| Visits(db, bits, k, offset, node) && !HasWindow(db, storage, node);
      assert x < db.segments && Visits(db, bits, k1, x, node);
    }
  }

  /**
   * From an array a lookup crashes exactly when the walk reads a node whose window the array does not
   * hold whole; otherwise it is the abstract walk. For every content of the database.
   */
  lemma {:induction false} ArrayIsWalk(db: Database, storage: Storage, bits: seq<bool>, k: nat, offset: int,
                                       buf: seq<byte>)
    requires db.Valid() && k <= |bits| && |buf| == WINDOW && !storage.Disk?
    ensures Seek(db, storage, bits, k, offset, buf)
            == if MissesWindow(db, storage, bits, k, offset) then Crashed else Walk(db, bits, k, offset)
    ensures !MissesWindow(db, storage, bits, k, offset) ==> !Walk(db, bits, k, offset).Crashed?
    decreases |bits| - k
  {
    hide Record, Child, Stored, MissesWindow, Database.Position;
    MissesHere(db, storage, bits, k, offset);
    if k < |bits| && HasWindow(db, storage, offset) {
      WindowInside(db, storage, buf, offset);
      MissesAhead(db, storage, bits, k, offset);
      var w := Fetch(db, storage, buf, offset).bytes;
      var x := Record(db, w, bits[k]);
      if x < db.segments { ArrayIsWalk(db, storage, bits, k + 1, x, w); }
    }
  }

  /** From disk, the abstract walk is followed as long as its nodes are in the file. */
  lemma {:induction false} DiskIsWalk(db: Database, bits: seq<bool>, k: nat, offset: int, buf: seq<byte>)
    requires db.Valid() && k <= |bits| && |buf| == WINDOW && !Walk(db, bits, k, offset).Crashed?
    ensures Seek(db, Disk, bits, k, offset, buf) == Walk(db, bits, k, offset)
    decreases |bits| - k
  {
    hide Record, Child, Fetch;
    if k < |bits| {
      DiskWindow(db, buf, offset);
      var w := Fetch(db, Disk, buf, offset).bytes;
      var x := Record(db, w, bits[k]);
      if x < db.segments { DiskIsWalk(db, bits, k + 1, x, w); }
    }
  }

  /** Three-byte records are never negative, and then nodes are where their offsets say. */
  lemma {:induction false} ShortRecords(db: Database, offset: int, right: bool)
    requires db.Valid() && HasNode(db, offset) && db.recordLength == 3
    ensures 0 <= Child(db, offset, right) < 0x100_0000
  {
    var p := db.Position(offset);
    var w := db.file[p..p + 6];
    var at := if right then 3 else 0;
    ThreeDigits(w[at..at + 3]);
  }

  lemma {:induction false} ThreeDigits(s: seq<byte>)
    requires |s| == 3
    ensures LittleEndian(s) < 0x100_0000
  {
    assert s[1..][1..] == s[2..] && s[2..][1..] == [];
    assert LittleEndian(s[2..]) == s[2];
    assert LittleEndian(s[1..]) == s[1] + 256 * (s[2] as int);
  }

  lemma {:induction false} PlainPosition(db: Database, offset: int)
    requires db.Valid() && 0 <= offset < 0x100_0000
    ensures db.Position(offset) == 2 * db.recordLength * offset
  {
  }

  /** The walk reads the last node, or a node where there is none. */
  ghost predicate ReachesEnd(db: Database, bits: seq<bool>, k: nat, offset: int)
    requires db.Valid() && k <= |bits|
  {
    exists node :: node >= db.segments - 1 && Visits(db, bits, k, offset, node)
  }

  /** One step of a walk that does not stop at this node. */
  lemma {:induction false} ReachesEndStep(db: Database, bits: seq<bool>, k: nat, offset: int)
    requires db.Valid() && k < |bits| && HasNode(db, offset) && offset < db.segments - 1
    ensures var x := Child(db, offset, bits[k]);
            ReachesEnd(db, bits, k, offset) <==> x < db.segments && ReachesEnd(db, bits, k + 1, x)
  {
    hide Child;
    var (x, k1) := (Child(db, offset, bits[k]), k + 1);
    if x < db.segments && ReachesEnd(db, bits, k1, x) {
      var node :| node >= db.segments - 1 && Visits(db, bits, k1, x, node);
      assert Visits(db, bits, k, offset, node);
    }
    if ReachesEnd(db, bits, k, offset) {
      var node :| node >= db.segments - 1 && Visits(db, bits, k, offset, node);
      assert x < db.segments && Visits(db, bits, k1, x, node);
    }
  }

  /**
   * With three-byte records the index cache is two bytes short of the last node's window: it
   * crashes exactly for the addresses whose walk reads the last node, and agrees with the walk,
   * and so with the other storages, for all others.
   */
  lemma {:induction false} IndexCacheShortRecords(db: Database, bits: seq<bool>, k: nat, offset: int, buf: seq<byte>)
    requires db.Valid() && k <= |bits| && |buf| == WINDOW && db.recordLength == 3
    requires db.segments * 6 <= |db.file| && 0 <= offset < 0x100_0000
    ensures Seek(db, IndexCache, bits, k, offset, buf)
            == if ReachesEnd(db, bits, k, offset) then Crashed else Walk(db, bits, k, offset)
    decreases |bits| - k
  {
    hide Record, Child, ReachesEnd;
    PlainPosition(db, offset);
    assert |Stored(db, IndexCache)| == 6 * db.segments;
    if k == |bits| {
      NoEndAhead(db, bits, offset);
    } else if offset >= db.segments - 1 {
      EndHere(db, bits, k, offset);
    } else {
      WindowInside(db, IndexCache, buf, offset);
      ReachesEndStep(db, bits, k, offset);
      ShortRecords(db, offset, bits[k]);
      var w := Fetch(db, IndexCache, buf, offset).bytes;
      var x := Record(db, w, bits[k]);
      if x < db.segments { IndexCacheShortRecords(db, bits, k + 1, x, w); }
    }
  }

  lemma {:induction false} NoEndAhead(db: Database, bits: seq<bool>, offset: int)
    requires db.Valid()
    ensures !ReachesEnd(db, bits, |bits|, offset)
  {
  }

  lemma {:induction false} EndHere(db: Database, bits: seq<bool>, k: nat, offset: int)
    requires db.Valid() && k < |bits| && offset >= db.segments - 1
    ensures ReachesEnd(db, bits, k, offset)
  {
    assert Visits(db, bits, k, offset, offset);
  }

  /** No record on the walk has its top bit set. */
  ghost predicate NonNegative(db: Database, bits: seq<bool>, k: nat, offset: int)
    requires db.Valid() && k <= |bits|
  {
    forall node :: Visits(db, bits, k, offset, node) ==> 0 <= node
  }

  /** With four-byte records the index cache holds every node's window and agrees with the walk. */
  lemma {:induction false} IndexCacheLongRecords(db: Database, bits: seq<bool>, k: nat, offset: int, buf: seq<byte>)
    requires db.Valid() && k <= |bits| && |buf| == WINDOW && db.recordLength == 4
    requires db.segments * 8 <= |db.file| && 0 <= offset < db.segments && NonNegative(db, bits, k, offset)
    ensures Seek(db, IndexCache, bits, k, offset, buf) == Walk(db, bits, k, offset)
    decreases |bits| - k
  {
    hide Record, Child;
    PlainPosition(db, offset);
    if k < |bits| {
      WindowInside(db, IndexCache, buf, offset);
      var w := Fetch(db, IndexCache, buf, offset).bytes;
      var x := Record(db, w, bits[k]);
      if x < db.segments {
        assert Visits(db, bits, k + 1, x, x) || k + 1 == |bits|;
        if k + 1 < |bits| {
          assert Visits(db, bits, k, offset, x);
          var k1 := k + 1;
          forall node | Visits(db, bits, k1, x, node) ensures 0 <= node { assert Visits(db, bits, k, offset, node); }
          IndexCacheLongRecords(db, bits, k + 1, x, w);
        }
      }
    }
  }

  /**
   * A lookup in any storage is a prefix map too: an address that starts with the bits that were used
   * gets the same value and the same netmask, whatever its other bits.
   */
  lemma {:induction false} SeekIsPrefixMap(db: Database, storage: Storage, bits: seq<bool>, bits': seq<bool>, k: nat,
                                           offset: int, buf: seq<byte>)
    requires db.Valid() && k <= |bits| && |buf| == WINDOW && Seek(db, storage, bits, k, offset, buf).Found?
    ensures var n := Seek(db, storage, bits, k, offset, buf).netmask;
            && k < n <= |bits|
            && (n <= |bits'| && bits[..n] == bits'[..n] ==>
                  Seek(db, storage, bits', k, offset, buf) == Seek(db, storage, bits, k, offset, buf))
    decreases |bits| - k
  {
    hide Record, Fetch;
    var n := Seek(db, storage, bits, k, offset, buf).netmask;
    var w := Fetch(db, storage, buf, offset).bytes;
    var x := Record(db, w, bits[k]);
    if x < db.segments { SeekIsPrefixMap(db, storage, bits, bits', k + 1, x, w); }
    if n <= |bits'| && bits[..n] == bits'[..n] {
      assert bits[..n][k] == bits'[..n][k];
    }
  }

  lemma {:induction false} CacheMissesMore(db: Database, bits: seq<bool>)
    requires db.Valid() && MissesWindow(db, Memory, bits, 0, 0)
    ensures MissesWindow(db, IndexCache, bits, 0, 0)
  {
    hide Visits;
    StoredIsFile(db, IndexCache);
    var node :| Visits(db, bits, 0, 0, node) && !HasWindow(db, Memory, node);
    assert !HasWindow(db, IndexCache, node);
  }

  /**
   * The storages agree. Where the file holds the windows of all nodes that the walk reads, memory and
   * disk are the walk, and memory crashes otherwise; where the index cache holds them, all three are
   * the walk, and the index cache crashes otherwise.
   */
  lemma {:induction false} StoragesAgree(db: Database, bits: seq<bool>, buf: seq<byte>)
    requires db.Valid() && |buf| == WINDOW
    ensures var walk := Walk(db, bits, 0, 0);
            var (memory, cache) := (Seek(db, Memory, bits, 0, 0, buf), Seek(db, IndexCache, bits, 0, 0, buf));
            && (if MissesWindow(db, Memory, bits, 0, 0) then memory == cache == Crashed
                else memory == Seek(db, Disk, bits, 0, 0, buf) == walk && !walk.Crashed?)
            && (if MissesWindow(db, IndexCache, bits, 0, 0) then cache == Crashed
                else cache == memory == Seek(db, Disk, bits, 0, 0, buf) == walk && !walk.Crashed?)
  {
    hide Walk, Seek, MissesWindow;
    ArrayIsWalk(db, Memory, bits, 0, 0, buf);
    ArrayIsWalk(db, IndexCache, bits, 0, 0, buf);
    if MissesWindow(db, Memory, bits, 0, 0) {
      CacheMissesMore(db, bits);
    } else {
      DiskIsWalk(db, bits, 0, 0, buf);
    }
  }
}
