/** The write-through block cache: a few lines with a tag and an age each.

    Age 0 is the line used last.  The cache is checked against the plain disk, and its choice
    of a line to reuse against a list of tags in the order of their last use.
  */
module BlockCache {
  import opened Words
  import opened ByteWords

  const EMPTY := -1
  const LINES := 32

  // ----- Ages -----

  /** `order[a]` is the line with age `a`. */
  ghost predicate Aged(ages: seq<int>, order: seq<nat>) {
    && |order| == |ages|
    && (forall a :: 0 <= a < |order| ==> order[a] < |ages| && ages[order[a]] == a)
    && (forall i :: 0 <= i < |ages| ==> 0 <= ages[i] < |order| && order[ages[i]] == i)
  }

  function Front<T>(s: seq<T>, a: nat): (r: seq<T>)
    requires a < |s|
    ensures |r| == |s|
  {
    [s[a]] + s[..a] + s[a + 1..]
  }

  /** Ages after line `r` is used: those of the lines used since have gone up by one. */
  function Used(ages: seq<int>, r: nat): (n: seq<int>)
    requires r < |ages|
    ensures |n| == |ages|
  {
    seq(|ages|, i requires 0 <= i < |ages| => if i == r then 0 else if ages[i] < ages[r] then ages[i] + 1 else ages[i])
  }

  lemma UsedAged(ages: seq<int>, order: seq<nat>, r: nat)
    requires Aged(ages, order) && r < |ages|
    ensures Aged(Used(ages, r), Front(order, ages[r]))
  {
    var a, ages', order' := ages[r], Used(ages, r), Front(order, ages[r]);
    forall j | 0 <= j < |order'| ensures order'[j] < |ages| && ages'[order'[j]] == j {
      var o := if j == 0 then a else if j <= a then j - 1 else j;
      assert order'[j] == order[o];
    }
    forall i | 0 <= i < |ages| ensures 0 <= ages'[i] < |order'| && order'[ages'[i]] == i {
      assert order[ages[i]] == i;
    }
  }

  // ----- The reference: tags in the order of their last use -----

  /** Using block `b` puts it first; if it was not there, the last one drops out. */
  function Touch(l: seq<int>, b: int): seq<int>
    requires l != []
  {
    if b in l then [b] + Remove(l, b) else [b] + l[..|l| - 1]
  }

  function Remove(l: seq<int>, b: int): seq<int>
    requires b in l
  {
    if l[0] == b then l[1..] else [l[0]] + Remove(l[1..], b)
  }

  lemma {:induction false} RemoveAt(l: seq<int>, a: nat)
    requires a < |l| && forall j :: 0 <= j < a ==> l[j] != l[a]
    ensures l[a] in l && Remove(l, l[a]) == l[..a] + l[a + 1..]
  {
    if a > 0 {
      assert l[1..][a - 1] == l[a];
      RemoveAt(l[1..], a - 1);
    }
  }

  function Recent(tags: seq<int>, order: seq<nat>): (l: seq<int>)
    requires forall a :: 0 <= a < |order| ==> order[a] < |tags|
    ensures |l| == |order|
  {
    seq(|order|, a requires 0 <= a < |order| => tags[order[a]])
  }

  /** The lines that are in use have different tags. */
  ghost predicate Tagged(tags: seq<int>) {
    forall i, j :: 0 <= i < j < |tags| && tags[i] == tags[j] ==> tags[i] == EMPTY
  }

  lemma HitRecent(tags: seq<int>, ages: seq<int>, order: seq<nat>, r: nat)
    requires Aged(ages, order) && |tags| == |ages| && r < |tags| && Tagged(tags) && tags[r] != EMPTY
    ensures order != [] && Recent(tags, Front(order, ages[r])) == Touch(Recent(tags, order), tags[r])
  {
    var l, a := Recent(tags, order), ages[r];
    assert l[a] == tags[r];
    RemoveAt(l, a);
    assert Recent(tags, Front(order, a)) == [l[a]] + (l[..a] + l[a + 1..]);
  }

  lemma MissRecent(tags: seq<int>, ages: seq<int>, order: seq<nat>, r: nat, b: int)
    requires Aged(ages, order) && |tags| == |ages| && r < |tags| && ages[r] == |ages| - 1 && b !in tags
    ensures order != [] && Recent(tags[r := b], Front(order, ages[r])) == Touch(Recent(tags, order), b)
  {
    var l, n := Recent(tags, order), |ages| - 1;
    assert b !in l;
    assert order[n] == r;
    forall j | 0 <= j < n ensures tags[r := b][order[j]] == l[j] { assert ages[order[j]] == j; }
    assert Recent(tags[r := b], Front(order, n)) == [b] + l[..n];
  }

  // ----- The cache -----

  /** Block image `b` with as much of `src` as fits written at `offset`. */
  function Patched(b: seq<Byte>, offset: nat, src: seq<Byte>): (r: seq<Byte>)
    requires offset <= |b|
    ensures |r| == |b|
  {
    var n := if |src| >= |b| - offset then |b| - offset else |src|;
    Patch(b, offset, src[..n])
  }

  /** A cache and its disk. */
  datatype Lines = Lines(tags: seq<int>, lines: seq<seq<Byte>>, ages: seq<int>, disk: seq<seq<Byte>>)

  ghost predicate Shaped(s: Lines, size: nat) {
    && |s.tags| == |s.lines| == |s.ages| > 0 && (exists order :: Aged(s.ages, order))
    && (forall i :: 0 <= i < |s.lines| ==> |s.lines[i]| == size)
    && (forall b :: 0 <= b < |s.disk| ==> |s.disk[b]| == size)
    && (forall i :: 0 <= i < |s.tags| ==> s.tags[i] == EMPTY || 0 <= s.tags[i] < |s.disk|)
  }

  /** No block is in two lines, and every line in use has the block of its tag as it is on the
      disk. */
  ghost predicate Coherent(s: Lines) {
    && |s.lines| == |s.tags| && Tagged(s.tags)
    && (forall i :: 0 <= i < |s.tags| ==>
        s.tags[i] == EMPTY || (0 <= s.tags[i] < |s.disk| && s.lines[i] == s.disk[s.tags[i]]))
  }

  /** The last line with tag `b`, or -1. */
  function LastAt(tags: seq<int>, b: int): (r: int)
    ensures -1 <= r < |tags| && (r == -1 <==> b !in tags)
    ensures r >= 0 ==> tags[r] == b && forall j :: r < j < |tags| ==> tags[j] != b
  {
    if tags == [] then -1 else if tags[|tags| - 1] == b then |tags| - 1 else LastAt(tags[..|tags| - 1], b)
  }

  /** The line to be reused. */
  function Oldest(ages: seq<int>): (r: nat)
    requires |ages| > 0
    ensures r < |ages|
  {
    var r := LastAt(ages, |ages| - 1);
    if r == -1 then 0 else r
  }

  lemma OldestIs(ages: seq<int>, order: seq<nat>)
    requires Aged(ages, order) && |ages| > 0
    ensures ages[Oldest(ages)] == |ages| - 1 && order[|ages| - 1] == Oldest(ages)
  {
    assert ages[order[|ages| - 1]] == |ages| - 1;
    assert |ages| - 1 in ages;
  }

  /** The first critical section of `bcache_get`: a line that has the block is used. */
  function LookedUp(s: Lines, b: nat): Lines
    requires |s.tags| == |s.ages|
  {
    var r := LastAt(s.tags, b);
    if r == -1 then s else s.(ages := Used(s.ages, r))
  }

  /** The second: the image that has been read goes into the oldest line. */
  function Filled(s: Lines, b: nat, image: seq<Byte>): Lines
    requires |s.tags| == |s.ages| == |s.lines| > 0
  {
    var r := Oldest(s.ages);
    Lines(s.tags[r := b], s.lines[r := image], Used(s.ages, r), s.disk)
  }

  /** `bcache_set`, which keeps the lock throughout. */
  function Stored(s: Lines, size: nat, b: nat, src: seq<Byte>, offset: nat): Lines
    requires |s.tags| == |s.ages| == |s.lines| > 0 && b < |s.disk| && offset <= |s.disk[b]|
    requires forall i :: 0 <= i < |s.lines| ==> offset <= |s.lines[i]|
  {
    var r := LastAt(s.tags, b);
    if r != -1 then
      var image := Patched(s.lines[r], offset, src);
      Lines(s.tags, s.lines[r := image], Used(s.ages, r), s.disk[b := image])
    else
      var image := Patched(s.disk[b], offset, src);
      Filled(s, b, image).(disk := s.disk[b := image])
  }

  lemma UsedShape(s: Lines, size: nat, r: nat)
    requires Shaped(s, size) && r < |s.ages|
    ensures Shaped(s.(ages := Used(s.ages, r)), size)
  {
    var order :| Aged(s.ages, order);
    UsedAged(s.ages, order, r);
  }

  lemma LookedUpKeeps(s: Lines, size: nat, b: nat)
    requires Shaped(s, size)
    ensures Shaped(LookedUp(s, b), size) && (Coherent(LookedUp(s, b)) <==> Coherent(s))
  {
    hide Aged;
    if b in s.tags { UsedShape(s, size, LastAt(s.tags, b)); }
  }

  /** Filling a line keeps the cache coherent if and only if the image is still that of the disk
      and no other line has the block. */
  lemma FilledExact(s: Lines, size: nat, b: nat, image: seq<Byte>)
    requires Shaped(s, size) && Coherent(s) && b < |s.disk| && |image| == size
    ensures Shaped(Filled(s, b, image), size) && Filled(s, b, image).disk == s.disk
    ensures Coherent(Filled(s, b, image)) <==> image == s.disk[b] && (b in s.tags ==> s.tags[Oldest(s.ages)] == b)
  {
    hide Aged;
    var r, s' := Oldest(s.ages), Filled(s, b, image);
    UsedShape(s, size, r);
    if b in s.tags && s.tags[r] != b {
      var i :| 0 <= i < |s.tags| && s.tags[i] == b;
      assert s'.tags[i] == s'.tags[r] == b;
    }
    if Coherent(s') { assert s'.tags[r] == b && s'.lines[r] == image; }
  }

  lemma StoredKeeps(s: Lines, size: nat, b: nat, src: seq<Byte>, offset: nat)
    requires Shaped(s, size) && Coherent(s) && b < |s.disk| && offset <= size
    ensures Shaped(Stored(s, size, b, src, offset), size) && Coherent(Stored(s, size, b, src, offset))
    ensures Stored(s, size, b, src, offset).disk == s.disk[b := Patched(s.disk[b], offset, src)]
  {
    hide Aged, Patched;
    var r := LastAt(s.tags, b);
    UsedShape(s, size, if r == -1 then Oldest(s.ages) else r);
  }

  lemma FilledShape(s: Lines, size: nat, b: nat, image: seq<Byte>)
    requires Shaped(s, size) && b < |s.disk| && |image| == size
    ensures Shaped(Filled(s, b, image), size)
  {
    hide Aged;
    UsedShape(s, size, Oldest(s.ages));
  }

  lemma StoredShape(s: Lines, size: nat, b: nat, src: seq<Byte>, offset: nat)
    requires Shaped(s, size) && b < |s.disk| && offset <= size
    ensures Shaped(Stored(s, size, b, src, offset), size)
  {
    hide Aged, Patched;
    var r := LastAt(s.tags, b);
    UsedShape(s, size, if r == -1 then Oldest(s.ages) else r);
  }

  lemma TagsDiffer(s: Lines)
    requires Coherent(s)
    ensures Tagged(s.tags)
  {
  }

  lemma BlockSize(s: Lines, size: nat, b: nat)
    requires Shaped(s, size) && b < |s.disk|
    ensures |s.disk[b]| == size
  {
  }

  lemma LineSize(s: Lines, size: nat, r: nat)
    requires Shaped(s, size) && r < |s.lines|
    ensures |s.lines[r]| == size
  {
  }

  lemma LookedUpImage(s: Lines, b: nat)
    requires |s.tags| == |s.ages| && Coherent(s)
    ensures LookedUp(s, b).disk == s.disk && (b !in s.tags ==> LookedUp(s, b) == s)
    ensures b in s.tags ==> b < |s.disk| && s.lines[LastAt(s.tags, b)] == s.disk[b]
  {
  }

  lemma WholeBlock(b: seq<Byte>, src: seq<Byte>, size: nat)
    requires |b| == size && |src| >= size
    ensures src[..size] == Patched(b, 0, src)
  {
  }

  class Cache {
    const size: nat
    const tags: array<int>
    const ages: array<int>
    const lines: array<seq<Byte>>
    var disk: seq<seq<Byte>>
    ghost var order: seq<nat>

    ghost function Snap(): Lines
      reads this, tags, ages, lines
    {
      Lines(tags[..], lines[..], ages[..], disk)
    }

    /** What holds whatever has happened between critical sections. */
    ghost predicate Sound()
      reads this, tags, ages, lines
    {
      tags.Length == ages.Length == lines.Length && tags != ages && Aged(ages[..], order) && Shaped(Snap(), size)
    }

    ghost predicate Valid()
      reads this, tags, ages, lines
    {
      Sound() && Coherent(Snap())
    }

    /** The tags in the order of their last use. */
    ghost function Lru(): seq<int>
      requires Sound()
      reads this, tags, ages, lines
    {
      Recent(tags[..], order)
    }

    constructor (image: seq<seq<Byte>>, blockSize: nat)
      requires forall b :: 0 <= b < |image| ==> |image[b]| == blockSize
      ensures Valid() && disk == image && size == blockSize && Lru() == seq(32, _ => EMPTY)
      ensures fresh(tags) && fresh(ages) && fresh(lines)
    {
      size := blockSize;
      tags := new int[LINES](_ => EMPTY);
      ages := new int[LINES](i => i);
      lines := new seq<Byte>[LINES](_ => Zeros(blockSize));
      disk := image;
      order := seq(LINES, a requires 0 <= a => a);
      new;
      assert Aged(ages[..], order);
    }

    /** The line with tag `b`, or -1. */
    method Find(b: nat) returns (r: int)
      ensures r == LastAt(tags[..], b)
    {
      r := -1;
      var i := 0;
      while i < tags.Length
        invariant i <= tags.Length && -1 <= r < i
        invariant r == -1 ==> forall j :: 0 <= j < i ==> tags[j] != b
        invariant r != -1 ==> tags[r] == b && forall j :: r < j < i ==> tags[j] != b
      {
        if tags[i] == b {
          r := i;
        }
        i := i + 1;
      }
    }

    /** A hit: every younger line gets older, and `r` becomes the youngest. */
    method Hit(r: nat)
      requires r < ages.Length && Aged(ages[..], order)
      modifies ages, this`order
      ensures Aged(ages[..], order) && order == Front(old(order), old(ages[r])) && ages[..] == Used(old(ages[..]), r)
    {
      ghost var was := ages[..];
      UsedAged(was, order, r);
      var i := 0;
      while i < ages.Length
        modifies ages
        invariant i <= ages.Length && ages[r] == was[r]
        invariant forall j :: 0 <= j < i ==> ages[j] == if was[j] < was[r] then was[j] + 1 else was[j]
        invariant forall j :: i <= j < ages.Length ==> ages[j] == was[j]
      {
        if ages[i] < ages[r] {
          ages[i] := ages[i] + 1;
        }
        i := i + 1;
      }
      ages[r] := 0;
      assert ages[..] == Used(was, r);
      order := Front(order, was[r]);
    }

    /** A miss: every line gets older, and the one that was the oldest is taken. */
    method Evict() returns (r: nat)
      requires ages.Length > 0 && Aged(ages[..], order)
      modifies ages, this`order
      ensures r == Oldest(old(ages[..])) && old(ages[r]) == ages.Length - 1 && ages[..] == Used(old(ages[..]), r)
      ensures Aged(ages[..], order) && order == Front(old(order), ages.Length - 1)
    {
      ghost var was := ages[..];
      OldestIs(was, order);
      ghost var oldest := Oldest(was);
      UsedAged(was, order, oldest);
      r := 0;
      var i := 0;
      while i < ages.Length
        modifies ages
        invariant i <= ages.Length && r < ages.Length && (oldest < i ==> r == oldest)
        invariant forall j :: 0 <= j < i ==> ages[j] == was[j] + 1
        invariant forall j :: i <= j < ages.Length ==> ages[j] == was[j]
      {
        ages[i] := ages[i] + 1;
        if ages[i] == ages.Length {
          assert order[was[i]] == i;
          r := i;
        }
        i := i + 1;
      }
      ages[r] := 0;
      assert ages[..] == Used(was, r);
      order := Front(order, was[r]);
    }

    /** `bcache_get` up to where it lets go of the lock: done if a line has the block. */
    method LookUp(b: nat) returns (found: bool, dest: seq<Byte>)
      requires Sound()
      modifies ages, this`order
      ensures Sound() && Snap() == LookedUp(old(Snap()), b) && (found <==> b in tags[..])
      ensures found ==> dest == lines[LastAt(tags[..], b)]
      ensures !found ==> order == old(order)
      ensures found && old(Valid()) ==> Lru() == Touch(old(Lru()), b)
    {
      hide Aged, Coherent, LastAt;
      found, dest := false, [];
      LookedUpKeeps(Snap(), size, b);
      var r := Find(b);
      if r != -1 {
        if Coherent(Snap()) { TagsDiffer(Snap()); HitRecent(tags[..], ages[..], order, r); }
        Hit(r);
        return true, lines[r];
      }
    }

    /** And from where it has it again, with the image that it has read. */
    method Fill(b: nat, image: seq<Byte>)
      requires Sound() && b < |disk| && |image| == size
      modifies tags, ages, lines, this`order
      ensures Sound() && Snap() == Filled(old(Snap()), b, image)
      ensures old(b !in tags[..]) ==> Lru() == Touch(old(Lru()), b)
    {
      hide Aged, LastAt;
      FilledShape(Snap(), size, b, image);
      var r := Evict();
      if b !in tags[..] { MissRecent(tags[..], old(ages[..]), old(order), r, b); }
      tags[r] := b;
      lines[r] := image;
      assert tags[..] == old(tags[..])[r := b] && lines[..] == old(lines[..])[r := image];
    }

    /** What a client sees: block `b` is used, and only its image may have changed. */
    twostate predicate Uses(b: nat, image: seq<Byte>)
      requires old(Valid())
      reads this, tags, ages, lines
    {
      Valid() && b < old(|disk|) && disk == old(disk)[b := image] && Lru() == Touch(old(Lru()), b)
    }

    /** `bcache_get`, when nothing comes between its two halves. */
    method Get(b: nat) returns (dest: seq<Byte>)
      requires Valid() && b < |disk|
      modifies this, tags, ages, lines
      ensures dest == old(disk[b]) && Uses(b, dest)
    {
      hide Aged, LastAt, Shaped, Coherent, Filled, LookedUp;
      LookedUpKeeps(Snap(), size, b);
      LookedUpImage(Snap(), b);
      assert disk[b := disk[b]] == disk && |disk[b]| == size by { BlockSize(Snap(), size, b); }
      ghost var s := Snap();
      var found: bool;
      found, dest := LookUp(b);
      if found {
        return;
      }
      dest := disk[b];
      FilledExact(s, size, b, dest);
      Fill(b, dest);
    }

    method SetHit(r: nat, b: nat, src: seq<Byte>, offset: nat)
      requires Sound() && b < |disk| && offset <= size && r < tags.Length && r == LastAt(tags[..], b)
      modifies this, ages, lines
      ensures Sound() && Snap() == Stored(old(Snap()), size, b, src, offset)
      ensures old(Valid()) ==> Lru() == Touch(old(Lru()), b)
    {
      hide Aged, Patched, Coherent, Shaped, LastAt, Used, Front, Recent, Touch;
      LineSize(Snap(), size, r);
      StoredShape(Snap(), size, b, src, offset);
      if Coherent(Snap()) {
        TagsDiffer(Snap());
        HitRecent(tags[..], ages[..], order, r);
      }
      Hit(r);
      var image := Patched(lines[r], offset, src);
      lines[r] := image;
      disk := disk[b := image];
      assert lines[..] == old(lines[..])[r := image];
    }

    method SetMiss(b: nat, src: seq<Byte>, offset: nat)
      requires Sound() && b < |disk| && offset <= size && b !in tags[..]
      modifies this, tags, ages, lines
      ensures Sound() && Snap() == Stored(old(Snap()), size, b, src, offset) && Lru() == Touch(old(Lru()), b)
    {
      hide Aged, Patched, Coherent;
      StoredShape(Snap(), size, b, src, offset);
      if |src| >= size && offset == 0 { WholeBlock(disk[b], src, size); }
      var image := if |src| >= size && offset == 0 then src[..size] else Patched(disk[b], offset, src);
      Fill(b, image);
      disk := disk[b := image];
    }

    /** `bcache_set`: writes through, reading the block first if only part of it is given. */
    method Set(b: nat, src: seq<Byte>, offset: nat)
      requires Sound() && b < |disk| && offset <= size
      modifies this, tags, ages, lines
      ensures Sound() && Snap() == Stored(old(Snap()), size, b, src, offset)
      ensures old(Valid()) ==> Uses(b, Patched(old(disk[b]), offset, src))
    {
      if Coherent(Snap()) { StoredKeeps(Snap(), size, b, src, offset); }
      hide Aged, Patched, Coherent, Stored, Shaped, LastAt;
      var r := Find(b);
      if r != -1 {
        SetHit(r, b, src, offset);
      } else {
        SetMiss(b, src, offset);
      }
    }
  }
}
