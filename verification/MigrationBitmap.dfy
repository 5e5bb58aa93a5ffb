/**
 The shared bitmap that tracks which old rows a schema migration has claimed and moved
 (src/backend/utils/migrate_schema.c).  Every row owns two neighbouring bits of a 64-bit
 word, so 32 rows share one word.
 */
module MigrationBitmap {

  /** A 64-bit word as the set of its one-bits: `w | 1 << k` is `w + {k}`, `w & ~(1 << k)` is `w - {k}`. */
  type Word = set<nat>

  const SIZE_OF_WORD: nat := 64
  const ELEMS_IN_WORD: nat := 32
  const NUM_TUPLES: nat := 2000000
  const BITMAP_SIZE: nat := 62500
  const TUPLES_PER_PAGE: nat := 15
  const NUM_BITMAP_LOCKS: nat := 256

  const UINT32: nat := 0x1_0000_0000

  /** A heap tuple address: block number and one-based offset within the page. */
  datatype Ctid = Ctid(block: nat, offset: nat)

  /** The element id MigrateTuple derives from a tuple address, in uint32 arithmetic. */
  function ElementId(c: Ctid): nat {
    (c.block * TUPLES_PER_PAGE + c.offset + UINT32 - 1) % UINT32
  }

  function WordId(eid: nat): nat { eid / ELEMS_IN_WORD }

  function LockBitId(eid: nat): nat { eid % ELEMS_IN_WORD * 2 }

  function MigrateBitId(eid: nat): nat { eid % ELEMS_IN_WORD * 2 + 1 }

  /** The first block whose element ids run past 2^32. */
  const WRAP_BLOCK: nat := 286331153

  /** An address in a table of `blocks` pages with up to `most` tuples each. */
  predicate InTable(c: Ctid, blocks: nat, most: nat) { c.block < blocks && 1 <= c.offset <= most }

  ghost predicate Identifies(blocks: nat, most: nat) {
    forall c, d :: InTable(c, blocks, most) && InTable(d, blocks, most) && ElementId(c) == ElementId(d) ==> c == d
  }

  lemma SmallId(c: Ctid)
    requires 0 < c.block * TUPLES_PER_PAGE + c.offset <= UINT32
    ensures ElementId(c) == c.block * TUPLES_PER_PAGE + c.offset - 1
  {
  }

  lemma NoWrap(c: Ctid, d: Ctid, blocks: nat, most: nat)
    requires InTable(c, blocks, most) && InTable(d, blocks, most) && ElementId(c) == ElementId(d)
    requires (blocks <= 1 && most < 0x1_0000) || (most <= TUPLES_PER_PAGE && blocks <= WRAP_BLOCK)
    ensures c == d
  {
    SmallId(c);
    SmallId(d);
  }

  /** One tuple a page: 15 has an inverse modulo 2^32. */
  lemma OneEach(b: nat, c: nat)
    requires b <= c < UINT32 && ElementId(Ctid(b, 1)) == ElementId(Ctid(c, 1))
    ensures b == c
  {
    var k := (c * 15) / UINT32 - (b * 15) / UINT32;
    assert ElementId(Ctid(b, 1)) == b * 15 - (b * 15) / UINT32 * UINT32;
    assert ElementId(Ctid(c, 1)) == c * 15 - (c * 15) / UINT32 * UINT32;
    assert (c - b) * 15 == k * UINT32;
    assert 0 <= k < 15;
  }

  /**
   Element ids identify the tuples of a table if and only if it has one page, or one tuple a page, or no
   page with more than 15 tuples and no block beyond the one at which the ids wrap around.
   */
  lemma ElementIdsIdentifyTuples(blocks: nat, most: nat)
    requires 1 <= blocks < UINT32 && 1 <= most < 0x1_0000
    ensures Identifies(blocks, most) <==>
            blocks == 1 || most == 1 || (most <= TUPLES_PER_PAGE && blocks <= WRAP_BLOCK)
  {
    if blocks == 1 || (most <= TUPLES_PER_PAGE && blocks <= WRAP_BLOCK) {
      forall c, d | InTable(c, blocks, most) && InTable(d, blocks, most) && ElementId(c) == ElementId(d) ensures c == d {
        NoWrap(c, d, blocks, most);
      }
    } else if most == 1 {
      forall c, d | InTable(c, blocks, most) && InTable(d, blocks, most) && ElementId(c) == ElementId(d) ensures c == d {
        if c.block <= d.block { OneEach(c.block, d.block); } else { OneEach(d.block, c.block); }
      }
    } else if most > TUPLES_PER_PAGE {
      var c, d := Ctid(0, TUPLES_PER_PAGE + 1), Ctid(1, 1);
      assert InTable(c, blocks, most) && InTable(d, blocks, most) && ElementId(c) == ElementId(d);
    } else {
      var c, d := Ctid(0, 1), Ctid(WRAP_BLOCK, 2);
      assert InTable(c, blocks, most) && InTable(d, blocks, most) && ElementId(c) == ElementId(d);
    }
  }

  /** The two bits of a row lie inside one word of the bitmap, and no two rows share a bit. */
  lemma BitsAreDistinct(e: nat, f: nat)
    requires e < NUM_TUPLES && f < NUM_TUPLES
    ensures WordId(e) < BITMAP_SIZE && MigrateBitId(e) < SIZE_OF_WORD
    ensures LockBitId(e) != MigrateBitId(f)
    ensures WordId(e) == WordId(f) && e != f ==>
              LockBitId(e) != LockBitId(f) && MigrateBitId(e) != MigrateBitId(f)
    // Rows of one word always fall under different partition locks.
    ensures WordId(e) == WordId(f) && e != f ==> e % NUM_BITMAP_LOCKS != f % NUM_BITMAP_LOCKS
  {
    assert e == ELEMS_IN_WORD * WordId(e) + e % ELEMS_IN_WORD;
    assert f == ELEMS_IN_WORD * WordId(f) + f % ELEMS_IN_WORD;
  }

  lemma OwnBitsOnly(e: nat)
    requires e < NUM_TUPLES
    ensures WordId(e) < BITMAP_SIZE
    ensures forall f: nat :: f < NUM_TUPLES ==> WordId(f) < BITMAP_SIZE
    ensures forall f: nat :: f < NUM_TUPLES ==> LockBitId(e) != MigrateBitId(f)
    ensures forall f: nat :: f < NUM_TUPLES ==> MigrateBitId(e) != LockBitId(f)
    ensures forall f: nat :: f < NUM_TUPLES && f != e && WordId(f) == WordId(e) ==>
              LockBitId(f) != LockBitId(e) && MigrateBitId(f) != MigrateBitId(e)
  {
    forall f: nat | f < NUM_TUPLES && f != e && WordId(f) == WordId(e)
      ensures LockBitId(f) != LockBitId(e) && MigrateBitId(f) != MigrateBitId(e)
    {
      BitsAreDistinct(e, f);
    }
  }

  predicate GetLockBit(words: seq<Word>, eid: nat)
    requires WordId(eid) < |words|
  {
    LockBitId(eid) in words[WordId(eid)]
  }

  predicate GetMigrateBit(words: seq<Word>, eid: nat)
    requires WordId(eid) < |words|
  {
    MigrateBitId(eid) in words[WordId(eid)]
  }

  /** Claims one row and leaves every other bit of the bitmap alone. */
  method SetLockBit(bitmap: array<Word>, eid: nat)
    requires bitmap.Length == BITMAP_SIZE && eid < NUM_TUPLES
    modifies bitmap
    ensures forall f: nat :: f < NUM_TUPLES ==>
              (GetLockBit(bitmap[..], f) <==> f == eid || GetLockBit(old(bitmap[..]), f))
    ensures forall f: nat :: f < NUM_TUPLES ==>
              GetMigrateBit(bitmap[..], f) == GetMigrateBit(old(bitmap[..]), f)
  {
    OwnBitsOnly(eid);
    bitmap[WordId(eid)] := bitmap[WordId(eid)] + {LockBitId(eid)};
  }

  /** Gives one row back and leaves every other bit of the bitmap alone. */
  method ResetLockBit(bitmap: array<Word>, eid: nat)
    requires bitmap.Length == BITMAP_SIZE && eid < NUM_TUPLES
    modifies bitmap
    ensures forall f: nat :: f < NUM_TUPLES ==>
              (GetLockBit(bitmap[..], f) <==> f != eid && GetLockBit(old(bitmap[..]), f))
    ensures forall f: nat :: f < NUM_TUPLES ==>
              GetMigrateBit(bitmap[..], f) == GetMigrateBit(old(bitmap[..]), f)
  {
    OwnBitsOnly(eid);
    bitmap[WordId(eid)] := bitmap[WordId(eid)] - {LockBitId(eid)};
  }

  /** Marks one row as moved and leaves every other bit of the bitmap alone. */
  method SetMigrateBit(bitmap: array<Word>, eid: nat)
    requires bitmap.Length == BITMAP_SIZE && eid < NUM_TUPLES
    modifies bitmap
    ensures forall f: nat :: f < NUM_TUPLES ==>
              (GetMigrateBit(bitmap[..], f) <==> f == eid || GetMigrateBit(old(bitmap[..]), f))
    ensures forall f: nat :: f < NUM_TUPLES ==>
              GetLockBit(bitmap[..], f) == GetLockBit(old(bitmap[..]), f)
  {
    OwnBitsOnly(eid);
    bitmap[WordId(eid)] := bitmap[WordId(eid)] + {MigrateBitId(eid)};
  }
}
