/** What a lookup means: the leaf of a binary trie that an address leads to. */
module GeoIpLayout {
  import opened Arithmetic
  import opened GeoIpTrie

  datatype Trie = Leaf(value: nat) | Branch(zero: Trie, one: Trie)

  function Branches(t: Trie): nat {
    match t
    case Leaf(_) => 0
    case Branch(zero, one) => 1 + Branches(zero) + Branches(one)
  }

  /** Where an address leads: left on 0 and right on 1, down to a leaf. */
  function Descend(t: Trie, bits: seq<bool>, depth: nat): Answer
    requires depth <= |bits|
    decreases t
  {
    match t
    case Leaf(value) => Found(value, depth)
    case Branch(zero, one) =>
      if depth == |bits| then Exhausted
      else if bits[depth] then Descend(one, bits, depth + 1)
      else Descend(zero, bits, depth + 1)
  }

  // ---------- tries in files ----------

  /** A number in bytes, the lowest first. */
  function Bytes(n: nat, length: nat): (r: seq<byte>)
    ensures |r| == length
  {
    if length == 0 then [] else [n % 256] + Bytes(n / 256, length - 1)
  }

  /** What a record holds for a subtree: a leaf's value, or the number of its first node. */
  function Entry(t: Trie, number: nat): nat { if t.Leaf? then t.value else number }

  /** The nodes of a trie, its root numbered `k`: two records each, for 0 and for 1, then the subtrees' nodes. */
  function Layout(t: Trie, k: nat, length: nat): (r: seq<byte>)
    ensures |r| == 2 * length * Branches(t)
  {
    match t
    case Leaf(_) => []
    case Branch(zero, one) =>
      var (k0, k1) := (k + 1, k + 1 + Branches(zero));
      LayoutLength(length, Branches(zero), Branches(one));
      Bytes(Entry(zero, k0), length) + Bytes(Entry(one, k1), length)
      + Layout(zero, k0, length) + Layout(one, k1, length)
  }

  lemma {:induction false} LayoutLength(length: nat, m: nat, n: nat)
    ensures 2 * length * (1 + m + n) == length + length + 2 * length * m + 2 * length * n
  {
  }

  /** Values of leaves are told from node numbers by being at least `segments`, and fit a record. */
  predicate LeavesFit(t: Trie, segments: nat, length: nat) {
    match t
    case Leaf(value) => segments <= value < if length == 3 then 0x100_0000 else 0x8000_0000
    case Branch(zero, one) => LeavesFit(zero, segments, length) && LeavesFit(one, segments, length)
  }

  /** The file starts with the trie; anything may follow. */
  ghost predicate Holds(db: Database, t: Trie) {
    && db.Valid() && t.Branch? && Branches(t) <= db.segments && LeavesFit(t, db.segments, db.recordLength)
    && Layout(t, 0, db.recordLength) <= db.file
  }

  // ---------- records ----------

  function ThreeByteInt(b0: int, b1: int, b2: int): int { b0 + 256 * b1 + 65536 * b2 }

  /** Four bytes as a Java int: from 2^31 on it is negative. */
  function FourByteInt(b0: int, b1: int, b2: int, b3: int): int {
    var n := b0 + 256 * b1 + 65536 * b2 + 16777216 * b3;
    if n < 0x8000_0000 then n else n - 0x1_0000_0000
  }

  /** The records of a node, spelled out byte by byte. */
  lemma {:induction false} RecordBytes(db: Database, w: seq<byte>)
    requires db.Valid() && |w| >= 2 * db.recordLength
    ensures db.recordLength == 3 ==>
              && Record(db, w, false) == ThreeByteInt(w[0], w[1], w[2])
              && Record(db, w, true) == ThreeByteInt(w[3], w[4], w[5])
    ensures db.recordLength == 4 ==>
              && Record(db, w, false) == FourByteInt(w[0], w[1], w[2], w[3])
              && Record(db, w, true) == FourByteInt(w[4], w[5], w[6], w[7])
  {
    hide LittleEndian, Wrap32;
    var n := db.recordLength;
    if n == 3 {
      ThreeBytes(w[0..3]); ThreeBytes(w[3..6]);
    } else {
      FourBytes(w[0..4]); FourBytes(w[4..8]);
    }
  }

  lemma {:induction false} ThreeBytes(s: seq<byte>)
    requires |s| == 3
    ensures Wrap32(LittleEndian(s)) == ThreeByteInt(s[0], s[1], s[2])
  {
    assert s[1..][1..] == s[2..] && s[2..][1..] == [];
    assert LittleEndian(s[2..]) == s[2];
    assert LittleEndian(s[1..]) == s[1] + 256 * (s[2] as int);
  }

  lemma {:induction false} FourBytes(s: seq<byte>)
    requires |s| == 4
    ensures Wrap32(LittleEndian(s)) == FourByteInt(s[0], s[1], s[2], s[3])
  {
    assert s[1..][1..] == s[2..] && s[2..][1..] == s[3..] && s[3..][1..] == [];
    assert LittleEndian(s[3..]) == s[3];
    assert LittleEndian(s[2..]) == s[2] + 256 * (s[3] as int);
    assert LittleEndian(s[1..]) == s[1] + 256 * (s[2] + 256 * (s[3] as int));
  }

  function Limit(length: nat): nat { if length == 0 then 1 else 256 * Limit(length - 1) }

  lemma {:induction false} BytesAreTheNumber(n: nat, length: nat)
    requires n < Limit(length)
    ensures LittleEndian(Bytes(n, length)) == n
  {
    if length > 0 {
      BytesAreTheNumber(n / 256, length - 1);
      assert Bytes(n, length)[1..] == Bytes(n / 256, length - 1);
    }
  }

  lemma {:induction false} EntryIsRecord(n: nat, length: nat)
    requires 3 <= length <= 4 && n < if length == 3 then 0x100_0000 else 0x8000_0000
    ensures Wrap32(LittleEndian(Bytes(n, length))) == n
  {
    hide LittleEndian, Bytes;
    assert Limit(2) == 0x1_0000;
    BytesAreTheNumber(n, length);
  }

  // ---------- lookups are descents ----------

  /** The part of the file from node `k` on. */
  ghost predicate HoldsAt(db: Database, t: Trie, k: nat) {
    && db.Valid() && k + Branches(t) <= db.segments && LeavesFit(t, db.segments, db.recordLength)
    && var (from, n) := (2 * db.recordLength * k, 2 * db.recordLength * Branches(t));
       0 <= from && 0 <= n && from + n <= |db.file| && db.file[from..from + n] == Layout(t, k, db.recordLength)
  }

  lemma {:induction false} Cut4(file: seq<byte>, from: nat, a: seq<byte>, b: seq<byte>, c: seq<byte>, d: seq<byte>)
    requires from + |a| + |b| + |c| + |d| <= |file|
    requires file[from..from + |a| + |b| + |c| + |d|] == a + b + c + d
    ensures file[from..from + |a| + |b|] == a + b
    ensures file[from + |a| + |b|..from + |a| + |b| + |c|] == c
    ensures file[from + |a| + |b| + |c|..from + |a| + |b| + |c| + |d|] == d
  {
    var all := a + b + c + d;
    var (p, q) := (|a| + |b|, |a| + |b| + |c|);
    assert all[..p] == a + b && all[p..q] == c && all[q..] == d;
    assert forall i | 0 <= i < |all| :: file[from + i] == all[i];
  }

  lemma {:induction false} NodeAt(db: Database, t: Trie, k: nat)
    requires t.Branch? && HoldsAt(db, t, k)
    ensures db.Position(k) == 2 * db.recordLength * k && HasNode(db, k)
    ensures var (k0, k1) := (k + 1, k + 1 + Branches(t.zero));
            && Child(db, k, false) == Entry(t.zero, k0) && Child(db, k, true) == Entry(t.one, k1)
            && HoldsAt(db, t.zero, k0) && HoldsAt(db, t.one, k1)
  {
    hide Layout, Bytes, Branches, LeavesFit, LittleEndian, Wrap32, Entry, Database.Position;
    var (n, from) := (db.recordLength, 2 * db.recordLength * k);
    Unfold(t, k, n, db.segments);
    PlainPosition(db, k);
    var (k0, k1, m0, m1) := (k + 1, k + 1 + Branches(t.zero), Branches(t.zero), Branches(t.one));
    var (a, b) := (Bytes(Entry(t.zero, k0), n), Bytes(Entry(t.one, k1), n));
    Offsets(n, k, m0, m1);
    Cut4(db.file, from, a, b, Layout(t.zero, k0, n), Layout(t.one, k1, n));
    EntryFits(t.zero, k0, db.segments, n); EntryFits(t.one, k1, db.segments, n);
    EntryIsRecord(Entry(t.zero, k0), n); EntryIsRecord(Entry(t.one, k1), n);
    assert (a + b)[0..n] == a && (a + b)[n..n + n] == b;
  }

  lemma {:induction false} Unfold(t: Trie, k: nat, length: nat, segments: nat)
    requires t.Branch?
    ensures var (k0, k1) := (k + 1, k + 1 + Branches(t.zero));
            Layout(t, k, length)
            == Bytes(Entry(t.zero, k0), length) + Bytes(Entry(t.one, k1), length)
               + Layout(t.zero, k0, length) + Layout(t.one, k1, length)
    ensures Branches(t) == 1 + Branches(t.zero) + Branches(t.one)
    ensures LeavesFit(t, segments, length) ==> LeavesFit(t.zero, segments, length) && LeavesFit(t.one, segments, length)
  {
    hide Bytes;
  }

  lemma {:induction false} EntryFits(t: Trie, k: nat, segments: nat, length: nat)
    requires LeavesFit(t, segments, length) && k + Branches(t) <= segments < 0x100_0000
    ensures Entry(t, k) < if length == 3 then 0x100_0000 else 0x8000_0000
  {
  }

  lemma {:induction false} Offsets(n: nat, k: nat, m0: nat, m1: nat)
    requires n == 3 || n == 4
    ensures 2 * n * (k + 1) == 2 * n * k + n + n
    ensures 2 * n * (k + 1 + m0) == 2 * n * k + n + n + 2 * n * m0
    ensures 2 * n * (1 + m0 + m1) == n + n + 2 * n * m0 + 2 * n * m1
  {
  }

  /** The walk through the file is the descent through the trie. */
  lemma {:induction false} WalkIsDescent(db: Database, t: Trie, k: nat, bits: seq<bool>, depth: nat)
    requires t.Branch? && HoldsAt(db, t, k) && depth <= |bits|
    ensures Walk(db, bits, depth, k) == Descend(t, bits, depth)
    decreases t
  {
    hide HoldsAt, Child, HasNode;
    if depth < |bits| {
      NodeAt(db, t, k);
      BranchesFit(db, t, k);
      var right := bits[depth];
      var (next, number) := if right then (t.one, k + 1 + Branches(t.zero)) else (t.zero, k + 1);
      assert HoldsAt(db, next, number) && Child(db, k, right) == Entry(next, number);
      if next.Branch? {
        BranchesFit(db, next, number);
        WalkIsDescent(db, next, number, bits, depth + 1);
      } else {
        LeafFits(db, next, number);
      }
    }
  }

  lemma {:induction false} BranchesFit(db: Database, t: Trie, k: nat)
    requires t.Branch? && HoldsAt(db, t, k)
    ensures db.Valid() && k < db.segments
  {
    hide Layout, LeavesFit;
  }

  lemma {:induction false} LeafFits(db: Database, t: Trie, k: nat)
    requires t.Leaf? && HoldsAt(db, t, k)
    ensures t.value >= db.segments
  {
    hide Layout;
  }

  /** The walk reads only nodes of the trie. */
  lemma {:induction false} VisitsBranches(db: Database, t: Trie, k: nat, bits: seq<bool>, depth: nat, node: int)
    requires t.Branch? && HoldsAt(db, t, k) && depth <= |bits| && Visits(db, bits, depth, k, node)
    ensures k <= node < k + Branches(t)
    decreases t
  {
    hide HoldsAt, Child, HasNode;
    BranchesFit(db, t, k);
    if node != k {
      NodeAt(db, t, k);
      var right := bits[depth];
      var (next, number) := if right then (t.one, k + 1 + Branches(t.zero)) else (t.zero, k + 1);
      assert HoldsAt(db, next, number) && Child(db, k, right) == Entry(next, number);
      if next.Branch? {
        VisitsBranches(db, next, number, bits, depth + 1, node);
      } else {
        LeafFits(db, next, number);
      }
    }
  }

  lemma {:induction false} HoldsIsHoldsAt(db: Database, t: Trie)
    requires Holds(db, t)
    ensures HoldsAt(db, t, 0)
  {
    hide Layout, LeavesFit;
    assert db.file[0..|Layout(t, 0, db.recordLength)|] == Layout(t, 0, db.recordLength);
  }

  /**
   * A lookup answers with the leaf that the address leads to, left on 0 and right on 1, and with its
   * depth as the netmask: from disk always, from memory and through the index cache if the last
   * node's window of eight bytes is in the array.
   */
  lemma {:induction false} LookupIsDescent(db: Database, t: Trie, bits: seq<bool>, buf: seq<byte>)
    requires Holds(db, t) && |buf| == WINDOW
    ensures Seek(db, Disk, bits, 0, 0, buf) == Descend(t, bits, 0)
    ensures 2 * db.recordLength * (Branches(t) - 1) + WINDOW <= |db.file| ==>
              Seek(db, Memory, bits, 0, 0, buf) == Descend(t, bits, 0)
    ensures 2 * db.recordLength * db.segments <= |db.file| && (db.recordLength == 4 || Branches(t) < db.segments) ==>
              Seek(db, IndexCache, bits, 0, 0, buf) == Descend(t, bits, 0)
  {
    hide Walk, Seek, Descend, MissesWindow, HoldsAt, Holds;
    HoldsIsHoldsAt(db, t);
    HoldsFacts(db, t);
    WalkIsDescent(db, t, 0, bits, 0);
    NotCrashed(t, bits, 0);
    DiskIsWalk(db, bits, 0, 0, buf);
    ArrayIsWalk(db, Memory, bits, 0, 0, buf);
    ArrayIsWalk(db, IndexCache, bits, 0, 0, buf);
    if 2 * db.recordLength * (Branches(t) - 1) + WINDOW <= |db.file| { WindowsHeld(db, t, Memory, bits); }
    if 2 * db.recordLength * db.segments <= |db.file| && (db.recordLength == 4 || Branches(t) < db.segments) {
      CacheBig(db.recordLength, Branches(t), db.segments);
      WindowsHeld(db, t, IndexCache, bits);
    }
  }

  lemma {:induction false} HoldsFacts(db: Database, t: Trie)
    requires Holds(db, t)
    ensures db.Valid() && t.Branch? && Branches(t) <= db.segments
  {
    hide Layout, LeavesFit;
  }

  lemma {:induction false} CacheBig(n: nat, branches: nat, segments: nat)
    requires (n == 3 && branches < segments) || (n == 4 && branches <= segments)
    ensures 2 * n * (branches - 1) + WINDOW <= 2 * n * segments
  {
  }

  lemma {:induction false} NotCrashed(t: Trie, bits: seq<bool>, depth: nat)
    requires depth <= |bits|
    ensures !Descend(t, bits, depth).Crashed?
    decreases t
  {
    if t.Branch? && depth < |bits| { NotCrashed(if bits[depth] then t.one else t.zero, bits, depth + 1); }
  }

  lemma {:induction false} WindowsHeld(db: Database, t: Trie, storage: Storage, bits: seq<bool>)
    requires db.Valid() && t.Branch? && HoldsAt(db, t, 0) && Branches(t) <= db.segments
    requires 2 * db.recordLength * (Branches(t) - 1) + WINDOW <= |Stored(db, storage)|
    ensures !MissesWindow(db, storage, bits, 0, 0)
  {
    hide HoldsAt, Stored, Visits;
    forall node | Visits(db, bits, 0, 0, node) ensures HasWindow(db, storage, node) {
      VisitsBranches(db, t, 0, bits, 0, node);
      PlainPosition(db, node);
    }
  }
}
