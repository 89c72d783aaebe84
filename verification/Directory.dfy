/** Directory blocks: records of inode number, record length, name length and name, each
    found from the one before by its record length. */
module Directory {
  import opened Sequences
  import opened Words
  import opened ByteWords

  const HEADER := 8
  const MAX_NAME := 256

  type Name = seq<Byte>

  datatype Entry = Entry(name: Name, inode: nat)

  // ----- The bytes of a record -----

  function U16(b: seq<Byte>, at: nat): nat
    requires at + 2 <= |b|
  {
    b[at] as int + 256 * b[at + 1] as int
  }

  function Inode(b: seq<Byte>, at: nat): (n: nat)
    requires at + HEADER <= |b|
    ensures n < MODULUS
  {
    Word4(b[at], b[at + 1], b[at + 2], b[at + 3])
  }

  function RecLen(b: seq<Byte>, at: nat): nat
    requires at + HEADER <= |b|
  {
    U16(b, at + 4)
  }

  function NameLen(b: seq<Byte>, at: nat): nat
    requires at + HEADER <= |b|
  {
    U16(b, at + 6)
  }

  /** The space a record with a name of `n` bytes needs. */
  function MinSize(n: nat): (r: nat)
    ensures r >= HEADER + n && r % 4 == 0 && r < HEADER + n + 4
  {
    var size := HEADER + n;
    if size % 4 != 0 then size + (4 - size % 4) else size
  }

  /** A record that can be walked over: long enough, aligned, inside the block, and if it is
      live then with room for its name. */
  predicate IsRecord(b: seq<Byte>, at: nat) {
    && at + HEADER <= |b| && RecLen(b, at) >= HEADER && RecLen(b, at) % 4 == 0 && at + RecLen(b, at) <= |b|
    && (Inode(b, at) != 0 ==> 0 < NameLen(b, at) && MinSize(NameLen(b, at)) <= RecLen(b, at))
  }

  function NameAt(b: seq<Byte>, at: nat): Name
    requires IsRecord(b, at) && Inode(b, at) != 0
  {
    b[at + HEADER..at + HEADER + NameLen(b, at)]
  }

  /** From `at` on, records fill the block exactly. */
  predicate Tiled(b: seq<Byte>, at: nat)
    decreases |b| - at
  {
    at == |b| || (at < |b| && IsRecord(b, at) && Tiled(b, at + RecLen(b, at)))
  }

  function EntryAt(b: seq<Byte>, at: nat): seq<Entry>
    requires IsRecord(b, at)
  {
    if Inode(b, at) == 0 then [] else [Entry(NameAt(b, at), Inode(b, at))]
  }

  /** The live records from `at` on. */
  function Entries(b: seq<Byte>, at: nat): seq<Entry>
    requires Tiled(b, at)
    decreases |b| - at
  {
    if at == |b| then [] else EntryAt(b, at) + Entries(b, at + RecLen(b, at))
  }

  /** A walk from `at` comes to `o`. */
  predicate Visits(b: seq<Byte>, at: nat, o: nat)
    requires Tiled(b, at)
    decreases |b| - at
  {
    at == o || (at < o && at < |b| && Visits(b, at + RecLen(b, at), o))
  }

  /** The live records from `at` up to `o`. */
  function Before(b: seq<Byte>, at: nat, o: nat): seq<Entry>
    requires Tiled(b, at) && Visits(b, at, o)
    decreases |b| - at
  {
    if at == o then [] else EntryAt(b, at) + Before(b, at + RecLen(b, at), o)
  }

  lemma {:induction false} VisitTiled(b: seq<Byte>, at: nat, o: nat)
    requires Tiled(b, at) && Visits(b, at, o)
    ensures at <= o <= |b| && Tiled(b, o) && Entries(b, at) == Before(b, at, o) + Entries(b, o)
    decreases |b| - at
  {
    hide RecLen, Inode, NameLen, MinSize, EntryAt;
    if at == o {
      hide *;
    } else {
      var next := at + RecLen(b, at);
      VisitTiled(b, next, o);
      assert Entries(b, at) == EntryAt(b, at) + Entries(b, next) &&
             Before(b, at, o) == EntryAt(b, at) + Before(b, next, o);
    }
  }

  /** A walk can go one record further. */
  lemma {:induction false} VisitNext(b: seq<Byte>, at: nat, o: nat)
    requires Tiled(b, at) && Visits(b, at, o) && o < |b|
    ensures IsRecord(b, o) && Tiled(b, o) && Visits(b, at, o + RecLen(b, o))
    ensures Before(b, at, o + RecLen(b, o)) == Before(b, at, o) + EntryAt(b, o)
    decreases |b| - at
  {
    hide RecLen, Inode, NameLen, MinSize, EntryAt;
    if at != o { VisitNext(b, at + RecLen(b, at), o); }
  }

  /** The same bytes up to `o` give the same walk up to there. */
  lemma {:induction false} SameWalk(b: seq<Byte>, b': seq<Byte>, at: nat, o: nat)
    requires |b'| == |b| && Tiled(b, at) && Visits(b, at, o) && Tiled(b', o)
    requires forall k :: at <= k < o ==> b'[k] == b[k]
    ensures Tiled(b', at) && Visits(b', at, o) && Before(b', at, o) == Before(b, at, o)
    decreases |b| - at
  {
    if at != o {
      VisitTiled(b, at + RecLen(b, at), o);
      SameRecord(b, b', at);
      SameWalk(b, b', at + RecLen(b, at), o);
    }
  }

  lemma SameRecord(b: seq<Byte>, b': seq<Byte>, at: nat)
    requires |b'| == |b| && IsRecord(b, at) && forall k :: at <= k < at + RecLen(b, at) ==> b'[k] == b[k]
    ensures IsRecord(b', at) && RecLen(b', at) == RecLen(b, at) && Inode(b', at) == Inode(b, at) &&
            EntryAt(b', at) == EntryAt(b, at)
  {
    assert forall k :: at <= k < at + HEADER ==> b'[k] == b[k];
    if Inode(b, at) != 0 { assert NameAt(b', at) == NameAt(b, at); }
  }

  /** The same bytes from `o` on give the same records. */
  lemma {:induction false} SameTail(b: seq<Byte>, b': seq<Byte>, o: nat)
    requires |b'| == |b| && Tiled(b, o) && forall k :: o <= k < |b| ==> b'[k] == b[k]
    ensures Tiled(b', o) && Entries(b', o) == Entries(b, o)
    decreases |b| - o
  {
    if o < |b| {
      SameRecord(b, b', o);
      SameTail(b, b', o + RecLen(b, o));
    }
  }

  // ----- Writing records -----

  function Bytes16(v: nat): (r: seq<Byte>)
    ensures |r| == 2
  {
    [v % 256, v / 256 % 256]
  }

  function Bytes32(v: nat): (r: seq<Byte>)
    ensures |r| == 4
  {
    [ByteOf(v, 0), ByteOf(v, 1), ByteOf(v, 2), ByteOf(v, 3)]
  }

  /** `ext2_write_dir_entry`. */
  function WriteEntry(b: seq<Byte>, at: nat, recLen: nat, name: Name, inode: nat): (r: seq<Byte>)
    requires at + HEADER + |name| <= |b|
    ensures |r| == |b|
  {
    Patch(Patch(Patch(Patch(b, at, Bytes32(inode)), at + 4, Bytes16(recLen)), at + 6, Bytes16(|name|)), at + HEADER,
          name)
  }

  lemma Read16(b: seq<Byte>, at: nat, v: nat)
    requires at + 2 <= |b| && v < 65536 && b[at] == Bytes16(v)[0] && b[at + 1] == Bytes16(v)[1]
    ensures U16(b, at) == v
  {
  }

  lemma Halves(v: nat)
    requires v < 65536
    ensures Bytes16(v)[0] + 256 * Bytes16(v)[1] as int == v
  {
  }

  /** The record as it is on the disk: inode number, record length and name length, low byte first,
      and then the name; all other bytes stay. */
  lemma EntryFormat(b: seq<Byte>, at: nat, recLen: nat, name: Name, inode: nat)
    requires at + 8 + |name| <= |b| && recLen < 65536 && |name| < 65536 && inode < MODULUS
    ensures var r := WriteEntry(b, at, recLen, name, inode);
            && inode == r[at] as int + 0x100 * r[at + 1] as int + 0x1_0000 * r[at + 2] as int +
                        0x100_0000 * r[at + 3] as int
            && r[at + 4] as int + 0x100 * r[at + 5] as int == recLen
            && r[at + 6] as int + 0x100 * r[at + 7] as int == |name|
            && r[at + 8..at + 8 + |name|] == name
            && (forall k :: 0 <= k < |b| && !(at <= k < at + 8 + |name|) ==> r[k] == b[k])
  {
    hide ByteOf, Word4;
    var r := WriteEntry(b, at, recLen, name, inode);
    WordBytes(inode);
    Halves(recLen);
    Halves(|name|);
    assert r[at] == Bytes32(inode)[0] && r[at + 1] == Bytes32(inode)[1] && r[at + 2] == Bytes32(inode)[2] &&
           r[at + 3] == Bytes32(inode)[3];
    FourBytes(ByteOf(inode, 0), ByteOf(inode, 1), ByteOf(inode, 2), ByteOf(inode, 3));
  }

  lemma FourBytes(a: int, b: int, c: int, d: int)
    ensures Word4(a, b, c, d) == a + 0x100 * b + 0x1_0000 * c + 0x100_0000 * d
  {
  }

  predicate Fits(name: Name, recLen: nat, inode: nat) {
    && 0 < |name| <= MAX_NAME && MinSize(|name|) <= recLen < 65536 && recLen % 4 == 0
    && 0 < inode < MODULUS
  }

  lemma Wrote(b: seq<Byte>, at: nat, recLen: nat, name: Name, inode: nat)
    requires Fits(name, recLen, inode) && at + recLen <= |b|
    ensures var r := WriteEntry(b, at, recLen, name, inode);
            && IsRecord(r, at) && RecLen(r, at) == recLen && EntryAt(r, at) == [Entry(name, inode)]
            && (forall k :: 0 <= k < |b| && !(at <= k < at + HEADER + |name|) ==> r[k] == b[k])
  {
    hide ByteOf, U16, Word4;
    var r := WriteEntry(b, at, recLen, name, inode);
    WordBytes(inode);
    assert r[at] == Bytes32(inode)[0] && r[at + 1] == Bytes32(inode)[1] && r[at + 2] == Bytes32(inode)[2] &&
           r[at + 3] == Bytes32(inode)[3];
    assert Inode(r, at) == inode;
    Read16(r, at + 4, recLen);
    Read16(r, at + 6, |name|);
    assert r[at + HEADER..at + HEADER + |name|] == name;
  }

  /** A record whose length is changed to `n`. */
  lemma Resized(b: seq<Byte>, at: nat, n: nat)
    requires IsRecord(b, at) && HEADER <= n < 65536 && n % 4 == 0 && at + n <= |b|
    requires Inode(b, at) != 0 ==> MinSize(NameLen(b, at)) <= n
    ensures var r := Patch(b, at + 4, Bytes16(n));
            && IsRecord(r, at) && RecLen(r, at) == n && EntryAt(r, at) == EntryAt(b, at)
  {
    hide U16, Word4;
    var r := Patch(b, at + 4, Bytes16(n));
    Read16(r, at + 4, n);
    assert Inode(r, at) == Inode(b, at);
    assert r[at + 6] == b[at + 6] && r[at + 7] == b[at + 7];
    assert NameLen(r, at) == NameLen(b, at) by { Same16(b, r, at + 6); }
    if Inode(b, at) != 0 { assert NameAt(r, at) == NameAt(b, at); }
  }

  lemma Same16(b: seq<Byte>, r: seq<Byte>, at: nat)
    requires at + 2 <= |b| == |r| && r[at] == b[at] && r[at + 1] == b[at + 1]
    ensures U16(r, at) == U16(b, at)
  {
  }

  // ----- Inserting into a block -----

  /** The record at `at` can take a new record of `size` bytes, in place of itself or behind it. */
  predicate RoomAt(b: seq<Byte>, at: nat, size: nat)
    requires IsRecord(b, at)
  {
    RecLen(b, at) >= size + if Inode(b, at) == 0 then 0 else MinSize(NameLen(b, at))
  }

  predicate SomeRoom(b: seq<Byte>, at: nat, size: nat)
    requires Tiled(b, at)
    decreases |b| - at
  {
    at < |b| && (RoomAt(b, at, size) || SomeRoom(b, at + RecLen(b, at), size))
  }

  /** The record at `o`, less the 8 bytes of header and the name of an entry in use, rounded up to
      a multiple of four, has `size` bytes left. */
  ghost predicate Spare(b: seq<Byte>, o: nat, size: nat)
    requires Tiled(b, 0)
  {
    && Visits(b, 0, o) && o < |b| && IsRecord(b, o)
    && RecLen(b, o) >= size
    && (Inode(b, o) != 0 ==>
          exists used :: NameLen(b, o) + 8 <= used < NameLen(b, o) + 12 && used % 4 == 0 && used + size <= RecLen(b, o))
  }

  /** There is room exactly if some record of the block has that much to spare. */
  lemma RoomMeans(b: seq<Byte>, size: nat)
    requires Tiled(b, 0)
    ensures SomeRoom(b, 0, size) <==> exists o :: Spare(b, o, size)
  {
    if SomeRoom(b, 0, size) {
      var o := RoomFound(b, 0, size);
      SpareAt(b, o, size);
    }
    if o :| Spare(b, o, size) {
      SpareAt(b, o, size);
      RoomSeen(b, 0, o, size);
    }
  }

  lemma SpareAt(b: seq<Byte>, o: nat, size: nat)
    requires Tiled(b, 0) && Visits(b, 0, o) && o < |b| && IsRecord(b, o)
    ensures Spare(b, o, size) <==> RoomAt(b, o, size)
  {
    hide RecLen, Inode, NameLen, Visits;
    var used := MinSize(NameLen(b, o));
    assert NameLen(b, o) + 8 <= used < NameLen(b, o) + 12 && used % 4 == 0;
  }

  lemma {:induction false} RoomFound(b: seq<Byte>, at: nat, size: nat) returns (o: nat)
    requires Tiled(b, at) && SomeRoom(b, at, size)
    ensures Visits(b, at, o) && o < |b| && IsRecord(b, o) && RoomAt(b, o, size)
    decreases |b| - at
  {
    hide RecLen, Inode, NameLen, MinSize, RoomAt;
    o := at;
    if !RoomAt(b, at, size) {
      o := RoomFound(b, at + RecLen(b, at), size);
      VisitTiled(b, at + RecLen(b, at), o);
    }
  }

  lemma {:induction false} RoomSeen(b: seq<Byte>, at: nat, o: nat, size: nat)
    requires Tiled(b, at) && Visits(b, at, o) && o < |b| && IsRecord(b, o) && RoomAt(b, o, size)
    ensures SomeRoom(b, at, size)
    decreases |b| - at
  {
    hide RecLen, Inode, NameLen, MinSize, RoomAt;
    if at != o { RoomSeen(b, at + RecLen(b, at), o, size); }
  }

  /** A change that is confined to the record at `o`, and leaves records there. */
  lemma Spliced(b: seq<Byte>, b': seq<Byte>, o: nat)
    requires Tiled(b, 0) && Visits(b, 0, o) && o < |b| == |b'| && Tiled(b', o)
    requires forall k :: 0 <= k < o ==> b'[k] == b[k]
    ensures Tiled(b', 0) && Entries(b', 0) == Before(b, 0, o) + Entries(b', o)
  {
    SameWalk(b, b', 0, o);
    VisitTiled(b', 0, o);
  }

  lemma OneRecord(b: seq<Byte>, o: nat)
    requires IsRecord(b, o) && Tiled(b, o + RecLen(b, o))
    ensures Tiled(b, o) && Entries(b, o) == EntryAt(b, o) + Entries(b, o + RecLen(b, o))
  {
  }

  lemma Onward(b: seq<Byte>, o: nat)
    requires Tiled(b, o) && o < |b|
    ensures IsRecord(b, o) && Tiled(b, o + RecLen(b, o))
    ensures Entries(b, o) == EntryAt(b, o) + Entries(b, o + RecLen(b, o))
  {
  }

  /** The walk over `b` goes through the record at `o`. */
  lemma Through(b: seq<Byte>, o: nat)
    requires Tiled(b, 0) && Visits(b, 0, o) && o < |b|
    ensures IsRecord(b, o) && Tiled(b, o + RecLen(b, o))
    ensures Entries(b, 0) == Before(b, 0, o) + EntryAt(b, o) + Entries(b, o + RecLen(b, o))
  {
    hide *;
    VisitTiled(b, 0, o);
    VisitNext(b, 0, o);
    Onward(b, o);
  }

  lemma Fills(b: seq<Byte>, b': seq<Byte>, o: nat, n: nat, name: Name, inode: nat)
    requires Tiled(b, 0) && Visits(b, 0, o) && |b'| == |b| && HEADER <= n && o + n <= |b| && Tiled(b, o + n)
    requires forall k :: 0 <= k < |b| && !(o <= k < o + n) ==> b'[k] == b[k]
    requires IsRecord(b', o) && RecLen(b', o) == n && EntryAt(b', o) == [Entry(name, inode)]
    ensures Tiled(b', 0) && Entries(b', 0) == Before(b, 0, o) + ([Entry(name, inode)] + Entries(b, o + n))
  {
    hide *;
    SameTail(b, b', o + n);
    OneRecord(b', o);
    Spliced(b, b', o);
  }

  lemma HoleEmpty(b: seq<Byte>, o: nat)
    requires IsRecord(b, o) && Inode(b, o) == 0
    ensures EntryAt(b, o) == []
  {
  }

  lemma Splits(b: seq<Byte>, b1: seq<Byte>, b': seq<Byte>, o: nat, m: nat, n: nat, name: Name, inode: nat)
    requires Tiled(b, 0) && Visits(b, 0, o) && |b'| == |b1| == |b| && HEADER <= m < n && o + n <= |b| && Tiled(b, o + n)
    requires forall k :: 0 <= k < |b| && !(o <= k < o + m) ==> b1[k] == b[k]
    requires forall k :: 0 <= k < |b| && !(o + m <= k < o + n) ==> b'[k] == b1[k]
    requires IsRecord(b, o) && IsRecord(b1, o) && RecLen(b1, o) == m && EntryAt(b1, o) == EntryAt(b, o)
    requires IsRecord(b', o + m) && RecLen(b', o + m) == n - m && EntryAt(b', o + m) == [Entry(name, inode)]
    ensures Tiled(b', 0) &&
            Entries(b', 0) == Before(b, 0, o) + (EntryAt(b, o) + [Entry(name, inode)] + Entries(b, o + n))
  {
    hide *;
    SameRecord(b1, b', o);
    SameTail(b, b', o + n);
    TwoRecords(b', o, m, n);
    Spliced(b, b', o);
  }

  lemma TwoRecords(b: seq<Byte>, o: nat, m: nat, n: nat)
    requires m < n && o + n <= |b| && IsRecord(b, o) && RecLen(b, o) == m && IsRecord(b, o + m) &&
             RecLen(b, o + m) == n - m && Tiled(b, o + n)
    ensures Tiled(b, o) && Entries(b, o) == EntryAt(b, o) + EntryAt(b, o + m) + Entries(b, o + n)
  {
    hide RecLen, Inode, EntryAt;
    assert Tiled(b, o + m);
  }

  lemma OneAdded(before: seq<Entry>, e: seq<Entry>, after: seq<Entry>, x: Entry)
    ensures multiset(before + (e + [x] + after)) == multiset(before + e + after) + multiset{x}
    ensures e == [] ==> before + ([x] + after) == before + (e + [x] + after)
  {
    assert multiset(before + (e + [x] + after)) == multiset(before) + (multiset(e) + multiset{x} + multiset(after));
    assert multiset(before + e + after) == multiset(before) + multiset(e) + multiset(after);
    if e == [] { assert e + [x] + after == [x] + after; }
  }

  lemma VisitStart(b: seq<Byte>)
    requires Tiled(b, 0)
    ensures Visits(b, 0, 0) && Before(b, 0, 0) == []
  {
  }

  /** A hole with room becomes the new record. */
  lemma FillHole(b: seq<Byte>, o: nat, name: Name, inode: nat)
    requires Tiled(b, 0) && |b| < 65536 && Visits(b, 0, o) && o < |b| && IsRecord(b, o) && Inode(b, o) == 0
    requires 0 < |name| <= MAX_NAME && 0 < inode < MODULUS && RecLen(b, o) >= MinSize(|name|)
    ensures var b' := WriteEntry(b, o, RecLen(b, o), name, inode);
            |b'| == |b| && Tiled(b', 0) &&
              multiset(Entries(b', 0)) == multiset(Entries(b, 0)) + multiset{Entry(name, inode)}
  {
    hide WriteEntry, RecLen, Inode, NameLen, EntryAt, MinSize, Entries, Before, Visits;
    var n := RecLen(b, o);
    Through(b, o);
    HoleEmpty(b, o);
    Wrote(b, o, n, name, inode);
    Fills(b, WriteEntry(b, o, n, name, inode), o, n, name, inode);
    OneAdded(Before(b, 0, o), EntryAt(b, o), Entries(b, o + n), Entry(name, inode));
  }

  /** A live record with room at its end is cut short, and the new record takes the rest. */
  lemma SplitRecord(b: seq<Byte>, o: nat, m: nat, n: nat, name: Name, inode: nat)
    requires HEADER <= m < 65536 && m % 4 == 0 && o + n <= |b| < 65536 && m + HEADER + |name| <= n &&
             Fits(name, n - m, inode)
    requires Tiled(b, 0) && Visits(b, 0, o) && IsRecord(b, o) && n == RecLen(b, o) && Inode(b, o) != 0 &&
             m == MinSize(NameLen(b, o))
    ensures var b' := WriteEntry(Patch(b, o + 4, Bytes16(m)), o + m, n - m, name, inode);
            |b'| == |b| && Tiled(b', 0) &&
              multiset(Entries(b', 0)) == multiset(Entries(b, 0)) + multiset{Entry(name, inode)}
  {
    hide WriteEntry, RecLen, Inode, NameLen, EntryAt, Patch, Bytes16, Entries, Before, Visits, Tiled, MinSize, Fits;
    var b1 := Patch(b, o + 4, Bytes16(m));
    Through(b, o);
    Resized(b, o, m);
    Wrote(b1, o + m, n - m, name, inode);
    hide IsRecord;
    Splits(b, b1, WriteEntry(b1, o + m, n - m, name, inode), o, m, n, name, inode);
    OneAdded(Before(b, 0, o), EntryAt(b, o), Entries(b, o + n), Entry(name, inode));
  }

  /** `dir_insert_entry_in_existing_block`: succeeds exactly when some record has room. */
  method InsertInBlock(b: seq<Byte>, name: Name, inode: nat) returns (ok: bool, b': seq<Byte>)
    requires Tiled(b, 0) && |b| < 65536 && 0 < |name| <= MAX_NAME && 0 < inode < MODULUS
    ensures |b'| == |b| && Tiled(b', 0)
    ensures ok <==> SomeRoom(b, 0, MinSize(|name|))
    ensures ok ==> multiset(Entries(b', 0)) == multiset(Entries(b, 0)) + multiset{Entry(name, inode)}
    ensures !ok ==> b' == b
  {
    hide WriteEntry, RecLen, Inode, NameLen, EntryAt, Patch, Bytes16, MinSize, Entries, Before, Visits;
    var o, size := 0, MinSize(|name|);
    VisitStart(b);
    while o < |b|
      invariant o <= |b| && Visits(b, 0, o) && Tiled(b, o)
      invariant SomeRoom(b, 0, size) <==> SomeRoom(b, o, size)
      decreases |b| - o
    {
      VisitNext(b, 0, o);
      Through(b, o);
      var n := RecLen(b, o);
      if Inode(b, o) == 0 {
        if n >= size {
          FillHole(b, o, name, inode);
          return true, WriteEntry(b, o, n, name, inode);
        }
      } else {
        var m := MinSize(NameLen(b, o));
        if n >= m + size {
          SplitRecord(b, o, m, n, name, inode);
          return true, WriteEntry(Patch(b, o + 4, Bytes16(m)), o + m, n - m, name, inode);
        }
      }
      o := o + n;
    }
    return false, b;
  }

  // ----- Removing from a block -----

  predicate Named(es: seq<Entry>, name: Name) {
    exists i :: 0 <= i < |es| && es[i].name == name
  }

  /** Whether the record at `o` is a live one with this name. */
  predicate Matches(b: seq<Byte>, o: nat, name: Name)
    requires IsRecord(b, o)
  {
    Inode(b, o) != 0 && NameLen(b, o) == |name| && NameAt(b, o) == name
  }

  lemma MatchEntry(b: seq<Byte>, o: nat, name: Name)
    requires IsRecord(b, o)
    ensures Matches(b, o, name) <==> Named(EntryAt(b, o), name)
    ensures Matches(b, o, name) ==>
            |EntryAt(b, o)| == 1 && EntryAt(b, o)[0].name == name && EntryAt(b, o)[0].inode == Inode(b, o)
    ensures |EntryAt(b, o)| <= 1
  {
    if Matches(b, o, name) { assert EntryAt(b, o)[0].name == name; }
  }

  /** A record with its inode number cleared. */
  lemma Cleared(b: seq<Byte>, o: nat)
    requires IsRecord(b, o)
    ensures var r := Patch(b, o, Bytes32(0)); IsRecord(r, o) && RecLen(r, o) == RecLen(b, o) && EntryAt(r, o) == []
  {
    hide U16;
    var r := Patch(b, o, Bytes32(0));
    assert ByteOf(0, 0) == 0 && ByteOf(0, 1) == 0 && ByteOf(0, 2) == 0 && ByteOf(0, 3) == 0;
    assert r[o] == 0 && r[o + 1] == 0 && r[o + 2] == 0 && r[o + 3] == 0;
    Same16(b, r, o + 4);
    Same16(b, r, o + 6);
  }

  /** The record at `p` swallows the one behind it. */
  lemma Merges(b: seq<Byte>, b': seq<Byte>, p: nat, n: nat)
    requires Tiled(b, 0) && Visits(b, 0, p) && IsRecord(b, p) && |b'| == |b| && 0 < n && p + n <= |b| && Tiled(b, p + n)
    requires forall k :: 0 <= k < |b| && !(p <= k < p + n) ==> b'[k] == b[k]
    requires IsRecord(b', p) && RecLen(b', p) == n
    ensures Tiled(b', 0) && Entries(b', 0) == Before(b, 0, p) + EntryAt(b', p) + Entries(b, p + n)
  {
    hide *;
    SameTail(b, b', p + n);
    OneRecord(b', p);
    Spliced(b, b', p);
  }

  lemma Gone(before: seq<Entry>, e: seq<Entry>, after: seq<Entry>)
    requires |e| == 1
    ensures before + after == Cut(before + e + after, |before|)
  {
  }

  lemma NamedParts(a: seq<Entry>, b: seq<Entry>, name: Name)
    ensures Named(a + b, name) <==> Named(a, name) || Named(b, name)
  {
    if Named(a, name) {
      var i :| 0 <= i < |a| && a[i].name == name;
      assert (a + b)[i].name == name;
    }
    if Named(b, name) {
      var i :| 0 <= i < |b| && b[i].name == name;
      assert (a + b)[|a| + i].name == name;
    }
  }

  /** The block without the entry of that name, if it is in a record from `o` on: the record is
      cleared and given to the one in front, at `p`, if there is one. */
  function Removed(b: seq<Byte>, p: int, o: nat, name: Name): seq<Byte>
    requires Tiled(b, o) && (p == -1 || (0 <= p && p + HEADER <= o))
    decreases |b| - o
  {
    if o == |b| then b
    else if !Matches(b, o, name) then Removed(b, o, o + RecLen(b, o), name)
    else
      var b1 := Patch(b, o, Bytes32(0));
      if p == -1 then b1 else Patch(b1, p + 4, Bytes16(RecLen(b, p) + RecLen(b, o)))
  }

  lemma {:induction false} RemovedNone(b: seq<Byte>, p: int, o: nat, name: Name)
    requires Tiled(b, o) && (p == -1 || (0 <= p && p + HEADER <= o)) && !Named(Entries(b, o), name)
    ensures Removed(b, p, o, name) == b
    decreases |b| - o
  {
    hide RecLen, Inode, NameLen, EntryAt, MinSize, Matches, Named, Patch;
    if o < |b| {
      NamedParts(EntryAt(b, o), Entries(b, o + RecLen(b, o)), name);
      MatchEntry(b, o, name);
      RemovedNone(b, o, o + RecLen(b, o), name);
    }
  }

  /** One step of the pass. */
  lemma RemovedNext(b: seq<Byte>, p: int, o: nat, name: Name)
    requires Tiled(b, o) && o < |b| && (p == -1 || (0 <= p && p + HEADER <= o))
    ensures IsRecord(b, o) && Tiled(b, o + RecLen(b, o))
    ensures !Matches(b, o, name) ==> Removed(b, p, o, name) == Removed(b, o, o + RecLen(b, o), name)
    ensures Matches(b, o, name) ==>
            var b1 := Patch(b, o, Bytes32(0));
            Removed(b, p, o, name) ==
            if p == -1 then b1 else Patch(b1, p + 4, Bytes16(RecLen(b, p) + RecLen(b, o)))
  {
    hide RecLen, Inode, NameLen, MinSize, Matches, Patch;
  }

  /** The one pass of `dir_remove_entry` over a block: the first live record with the name is
      cleared and given to the record in front of it, if there is one. */
  method RemoveFromBlock(b: seq<Byte>, name: Name) returns (found: bool, b': seq<Byte>, ghost i: nat)
    requires Tiled(b, 0) && |b| < 65536
    ensures |b'| == |b| && Tiled(b', 0)
    ensures b' == Removed(b, -1, 0, name) && (found <==> Named(Entries(b, 0), name))
    ensures found ==> i < |Entries(b, 0)| && Entries(b, 0)[i].name == name && Entries(b', 0) == Cut(Entries(b, 0), i)
    ensures !found ==> b' == b
  {
    hide WriteEntry, RecLen, Inode, NameLen, EntryAt, Patch, Bytes16, Bytes32, MinSize, Entries, Before, Visits,
         Matches, Named, Cut, Removed;
    i := 0;
    var o, p := 0, -1;
    VisitStart(b);
    NoneNamed(name);
    while o < |b|
      invariant 0 <= o <= |b| && Visits(b, 0, o) && Tiled(b, o) && !Named(Before(b, 0, o), name)
      invariant (p == -1 || (0 <= p && p + HEADER <= o)) && Removed(b, p, o, name) == Removed(b, -1, 0, name)
      invariant if p == -1 then o == 0
                else 0 <= p < |b| && Visits(b, 0, p) && IsRecord(b, p) && o == p + RecLen(b, p) &&
                                            Before(b, 0, o) == Before(b, 0, p) + EntryAt(b, p)
      decreases |b| - o
    {
      VisitNext(b, 0, o);
      Through(b, o);
      MatchEntry(b, o, name);
      RemovedNext(b, p, o, name);
      var n := RecLen(b, o);
      if Matches(b, o, name) {
        i := |Before(b, 0, o)|;
        Gone(Before(b, 0, o), EntryAt(b, o), Entries(b, o + n));
        NamedAt(Before(b, 0, o), EntryAt(b, o), Entries(b, o + n), name);
        var b1 := Patch(b, o, Bytes32(0));
        Cleared(b, o);
        if p == -1 {
          Merges(b, b1, o, n);
          return true, b1, i;
        }
        SameRecord(b, b1, p);
        Resized(b1, p, RecLen(b, p) + n);
        b' := Patch(b1, p + 4, Bytes16(RecLen(b, p) + n));
        Merges(b, b', p, RecLen(b, p) + n);
        return true, b', i;
      }
      NamedParts(Before(b, 0, o), EntryAt(b, o), name);
      p := o;
      o := o + n;
    }
    AllBefore(b);
    RemovedNone(b, -1, 0, name);
    return false, b, 0;
  }

  lemma NoneNamed(name: Name)
    ensures !Named([], name)
  {
  }

  lemma NamedAt(before: seq<Entry>, e: seq<Entry>, after: seq<Entry>, name: Name)
    requires |e| == 1 && e[0].name == name
    ensures Named(before + e + after, name)
  {
    assert (before + e + after)[|before|].name == name;
  }

  lemma AllBefore(b: seq<Byte>)
    requires Tiled(b, 0) && Visits(b, 0, |b|)
    ensures Entries(b, 0) == Before(b, 0, |b|)
  {
    VisitTiled(b, 0, |b|);
  }

  // ----- The whole directory -----

  ghost function AllEntries(blocks: seq<seq<Byte>>): multiset<Entry>
    requires forall k :: 0 <= k < |blocks| ==> Tiled(blocks[k], 0)
  {
    if blocks == [] then multiset{}
    else AllEntries(blocks[..|blocks| - 1]) + multiset(Entries(blocks[|blocks| - 1], 0))
  }

  /** No two entries have the same name. */
  ghost predicate Unique(m: multiset<Entry>) {
    (forall x :: m[x] <= 1) && (forall x, y :: x in m && y in m && x.name == y.name ==> x == y)
  }

  /** The directory as a map from names to inode numbers. */
  ghost function Table(m: multiset<Entry>): map<Name, nat>
    requires Unique(m)
  {
    map x | x in m :: x.name := x.inode
  }

  lemma {:induction false} BlockReplaced(blocks: seq<seq<Byte>>, k: nat, b': seq<Byte>)
    requires k < |blocks| && (forall j :: 0 <= j < |blocks| ==> Tiled(blocks[j], 0)) && Tiled(b', 0)
    ensures AllEntries(blocks[k := b']) + multiset(Entries(blocks[k], 0)) ==
            AllEntries(blocks) + multiset(Entries(b', 0))
  {
    hide Tiled, Entries;
    var n := |blocks| - 1;
    if k == n {
      assert blocks[k := b'][..n] == blocks[..n];
    } else {
      BlockReplaced(blocks[..n], k, b');
      assert blocks[k := b'][..n] == blocks[..n][k := b'];
      Shuffle(AllEntries(blocks[..n][k := b']), AllEntries(blocks[..n]), multiset(Entries(blocks[n], 0)),
              multiset(Entries(blocks[k], 0)), multiset(Entries(b', 0)));
    }
  }

  lemma Shuffle(a': multiset<Entry>, a: multiset<Entry>, l: multiset<Entry>, e: multiset<Entry>, e': multiset<Entry>)
    requires a' + e == a + e'
    ensures (a' + l) + e == (a + l) + e'
  {
    assert (a' + l) + e == (a' + e) + l;
    assert (a + l) + e' == (a + e') + l;
  }

  // ----- Walking over the file from block to block -----

  function Flat(blocks: seq<seq<Byte>>): seq<Byte> {
    if blocks == [] then [] else Flat(blocks[..|blocks| - 1]) + blocks[|blocks| - 1]
  }

  /** A tiled block inside a larger run of records reads the same there. */
  lemma {:induction false} Embedded(b: seq<Byte>, c: seq<Byte>, base: nat, at: nat)
    requires Tiled(b, at) && at <= |b| && base + |b| <= |c| && c[base..base + |b|] == b && Tiled(c, base + |b|)
    ensures Tiled(c, base + at) && Entries(c, base + at) == Entries(b, at) + Entries(c, base + |b|)
    decreases |b| - at
  {
    if at < |b| {
      hide RecLen, Inode, NameLen, MinSize, EntryAt, Entries;
      MovedRecord(b, c, base, at);
      Embedded(b, c, base, at + RecLen(b, at));
      OneRecord(b, at);
      OneRecord(c, base + at);
    } else {
      hide *;
      NoEntries(b);
    }
  }

  lemma NoEntries(b: seq<Byte>)
    ensures Tiled(b, |b|) && Entries(b, |b|) == []
  {
  }

  lemma MovedRecord(b: seq<Byte>, c: seq<Byte>, base: nat, at: nat)
    requires IsRecord(b, at) && base + |b| <= |c| && c[base..base + |b|] == b
    ensures IsRecord(c, base + at) && RecLen(c, base + at) == RecLen(b, at) && EntryAt(c, base + at) == EntryAt(b, at)
  {
    forall k | 0 <= k < |b| ensures b[k] == c[base + k] { assert c[base..base + |b|][k] == b[k]; }
    if Inode(b, at) != 0 {
      var from, to := at + HEADER, at + HEADER + NameLen(b, at);
      assert c[base..base + |b|][from..to] == c[base + from..base + to];
    }
  }

  /** Walking over the whole file from record to record sees the entries of every block. */
  lemma {:induction false} FlatEntries(blocks: seq<seq<Byte>>, rest: seq<Byte>)
    requires (forall k :: 0 <= k < |blocks| ==> Tiled(blocks[k], 0)) && Tiled(Flat(blocks) + rest, |Flat(blocks)|)
    ensures Tiled(Flat(blocks) + rest, 0)
    ensures multiset(Entries(Flat(blocks) + rest, 0)) ==
            AllEntries(blocks) + multiset(Entries(Flat(blocks) + rest, |Flat(blocks)|))
    decreases |blocks|
  {
    hide Tiled, Entries;
    if blocks == [] {
      assert |Flat(blocks)| == 0;
    } else {
      var n := |blocks| - 1;
      var init, last, c := blocks[..n], blocks[n], Flat(blocks) + rest;
      assert c == Flat(init) + (last + rest);
      assert c[|Flat(init)|..|Flat(init)| + |last|] == last;
      assert |Flat(blocks)| == |Flat(init)| + |last|;
      Embedded(last, c, |Flat(init)|, 0);
      FlatEntries(init, last + rest);
    }
  }

  lemma UniqueAdd(m: multiset<Entry>, x: Entry)
    requires Unique(m) && forall y :: y in m ==> y.name != x.name
    ensures Unique(m + multiset{x})
  {
    forall y ensures (m + multiset{x})[y] <= 1 { assert m[y] <= 1; }
  }

  lemma TableHas(m: multiset<Entry>)
    requires Unique(m)
    ensures forall x :: x in m ==> x.name in Table(m) && Table(m)[x.name] == x.inode
    ensures forall n :: n in Table(m) ==> Entry(n, Table(m)[n]) in m
  {
  }

  /** A map that has exactly the entries of `m` is its table. */
  lemma TableIs(m: multiset<Entry>, t: map<Name, nat>)
    requires Unique(m) && (forall x :: x in m ==> x.name in t && t[x.name] == x.inode) &&
             (forall n :: n in t ==> Entry(n, t[n]) in m)
    ensures Table(m) == t
  {
    hide Table, Unique;
    TableHas(m);
    forall n | n in t ensures n in Table(m) && Table(m)[n] == t[n] { assert Entry(n, t[n]).name in Table(m); }
    forall n | n in Table(m) ensures n in t { assert Entry(n, Table(m)[n]).name in t; }
  }

  lemma TableAdd(m: multiset<Entry>, x: Entry)
    requires Unique(m) && x.name !in Table(m)
    ensures Unique(m + multiset{x}) && Table(m + multiset{x}) == Table(m)[x.name := x.inode]
  {
    hide Unique, Table;
    TableHas(m);
    UniqueAdd(m, x);
    TableIs(m + multiset{x}, Table(m)[x.name := x.inode]);
  }

  lemma UniqueLess(m: multiset<Entry>, m': multiset<Entry>, x: Entry)
    requires Unique(m) && m == m' + multiset{x}
    ensures Unique(m') && (forall y :: y in m' <==> y in m && y != x) && x in m
  {
    forall y ensures m'[y] <= 1 && (y in m' <==> y in m && y != x) { assert m[y] <= 1; }
  }

  lemma TableRemove(m: multiset<Entry>, m': multiset<Entry>, x: Entry)
    requires Unique(m) && m == m' + multiset{x}
    ensures Unique(m') && Table(m') == Table(m) - {x.name} && x.name in Table(m)
  {
    UniqueLess(m, m', x);
    forall y | y in m' ensures y.name != x.name { assert y in m; }
    hide Unique, Table;
    TableHas(m);
    TableIs(m', Table(m) - {x.name});
  }

  lemma {:induction false} RemovedOne(es: seq<Entry>, i: nat)
    requires i < |es|
    ensures multiset(es) == multiset(Cut(es, i)) + multiset{es[i]}
  {
    assert es == es[..i] + [es[i]] + es[i + 1..];
  }

  /** A block with one record that has all of it. */
  lemma SingleRecord(b: seq<Byte>)
    requires IsRecord(b, 0) && RecLen(b, 0) == |b|
    ensures Tiled(b, 0) && Entries(b, 0) == EntryAt(b, 0)
  {
    assert Tiled(b, |b|);
  }

  lemma NameFits(name: Name, size: nat, inode: nat)
    requires MinSize(MAX_NAME) <= size < 65536 && size % 4 == 0 && 0 < |name| <= MAX_NAME && 0 < inode < MODULUS
    ensures Fits(name, size, inode)
  {
  }

  lemma InsertedAll(blocks: seq<seq<Byte>>, k: nat, b': seq<Byte>, x: Entry)
    requires k < |blocks| && (forall j :: 0 <= j < |blocks| ==> Tiled(blocks[j], 0)) && Tiled(b', 0)
    requires multiset(Entries(b', 0)) == multiset(Entries(blocks[k], 0)) + multiset{x}
    ensures AllEntries(blocks[k := b']) == AllEntries(blocks) + multiset{x}
  {
    hide Tiled, Entries;
    BlockReplaced(blocks, k, b');
    Cancel(AllEntries(blocks[k := b']), AllEntries(blocks), multiset(Entries(blocks[k], 0)), multiset{x});
  }

  lemma Cancel(a: multiset<Entry>, b: multiset<Entry>, e: multiset<Entry>, x: multiset<Entry>)
    requires a + e == b + (e + x)
    ensures a == b + x
  {
    forall y ensures a[y] == (b + x)[y] { assert (a + e)[y] == (b + (e + x))[y]; }
  }

  lemma RemovedAll(blocks: seq<seq<Byte>>, k: nat, b': seq<Byte>, i: nat)
    requires k < |blocks| && (forall j :: 0 <= j < |blocks| ==> Tiled(blocks[j], 0)) && Tiled(b', 0) &&
             Unique(AllEntries(blocks))
    requires i < |Entries(blocks[k], 0)| && Entries(b', 0) == Cut(Entries(blocks[k], 0), i)
    ensures var x, m, m' := Entries(blocks[k], 0)[i], AllEntries(blocks), AllEntries(blocks[k := b']);
            Unique(m') && Table(m') == Table(m) - {x.name} && x.name in Table(m)
  {
    hide Tiled, Entries, Unique;
    var x := Entries(blocks[k], 0)[i];
    BlockReplaced(blocks, k, b');
    RemovedOne(Entries(blocks[k], 0), i);
    Cancel(AllEntries(blocks), AllEntries(blocks[k := b']), multiset(Entries(b', 0)), multiset{x});
    TableRemove(AllEntries(blocks), AllEntries(blocks[k := b']), x);
  }

  lemma NowhereNamed(blocks: seq<seq<Byte>>, name: Name)
    requires (forall j :: 0 <= j < |blocks| ==> Tiled(blocks[j], 0)) && Unique(AllEntries(blocks))
    requires forall j :: 0 <= j < |blocks| ==> !Named(Entries(blocks[j], 0), name)
    ensures name !in Table(AllEntries(blocks))
  {
    hide Tiled, Entries, Unique;
    forall x | x in AllEntries(blocks) ensures x.name != name {
      var j := InSomeBlock(blocks, x);
      var i :| 0 <= i < |Entries(blocks[j], 0)| && Entries(blocks[j], 0)[i] == x;
    }
  }

  lemma {:induction false} InSomeBlock(blocks: seq<seq<Byte>>, x: Entry) returns (j: nat)
    requires (forall j :: 0 <= j < |blocks| ==> Tiled(blocks[j], 0)) && x in AllEntries(blocks)
    ensures j < |blocks| && x in Entries(blocks[j], 0)
  {
    hide Tiled, Entries;
    var n := |blocks| - 1;
    if x in Entries(blocks[n], 0) {
      j := n;
    } else {
      j := InSomeBlock(blocks[..n], x);
    }
  }

  lemma LiveInode(c: seq<Byte>, o: nat, name: Name)
    requires IsRecord(c, o) && Matches(c, o, name)
    ensures Inode(c, o) != 0
  {
  }

  lemma WholeFile(blocks: seq<seq<Byte>>)
    requires forall k :: 0 <= k < |blocks| ==> Tiled(blocks[k], 0)
    ensures Tiled(Flat(blocks), 0) && multiset(Entries(Flat(blocks), 0)) == AllEntries(blocks)
  {
    hide Entries;
    assert Flat(blocks) + [] == Flat(blocks);
    NoEntries(Flat(blocks));
    FlatEntries(blocks, []);
  }

  lemma InTable(m: multiset<Entry>, before: seq<Entry>, e: seq<Entry>, after: seq<Entry>)
    requires Unique(m) && |e| == 1 && m == multiset(before + e + after)
    ensures e[0].name in Table(m) && Table(m)[e[0].name] == e[0].inode
  {
    assert (before + e + after)[|before|] == e[0];
    assert e[0] in m;
  }

  /** An entry of a block is an entry of the directory. */
  lemma {:induction false} InAllEntries(blocks: seq<seq<Byte>>, j: nat, x: Entry)
    requires (forall k :: 0 <= k < |blocks| ==> Tiled(blocks[k], 0)) && j < |blocks| && x in Entries(blocks[j], 0)
    ensures x in AllEntries(blocks)
  {
    hide Tiled, Entries;
    if j < |blocks| - 1 { InAllEntries(blocks[..|blocks| - 1], j, x); }
  }

  lemma NotInTable(m: multiset<Entry>, es: seq<Entry>, name: Name)
    requires Unique(m) && m == multiset(es) && !Named(es, name)
    ensures name !in Table(m)
  {
    forall x | x in m ensures x.name != name {
      assert x in es;
    }
  }
}
