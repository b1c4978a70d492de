/**
 Black lists: hash tables of heap blocks to which something that looks like a pointer leads.
 The allocator avoids them.
 */
module BlackList {
  import opened Arithmetic
  import opened Powers

  const WORDSZ: nat := 64
  const PHT_ENTRIES: nat := 0x40000
  const PHT_SIZE: nat := PHT_ENTRIES / WORDSZ

  /** `PHT_HASH` of the address of block `h`. */
  function Hash(h: nat): (index: nat)
    ensures index < PHT_ENTRIES
  {
    h % PHT_ENTRIES
  }

  /** `get_pht_entry_from_index`: one bit of a table of words. */
  predicate Bit(table: seq<nat>, index: nat)
    requires |table| == PHT_SIZE && index < PHT_ENTRIES
  {
    table[index / WORDSZ] / Pow2(index % WORDSZ) % 2 == 1
  }

  /** The four tables; those for other than stack references are used only if interior pointers do not count. */
  datatype Lists = Lists(allInterior: bool, oldNormal: seq<nat>, incompleteNormal: seq<nat>,
                         oldStack: seq<nat>, incompleteStack: seq<nat>)
  {
    predicate Valid() {
      && |oldNormal| == PHT_SIZE && |incompleteNormal| == PHT_SIZE
      && |oldStack| == PHT_SIZE && |incompleteStack| == PHT_SIZE
    }

    predicate OnNormalList(h: nat)
      requires Valid()
    {
      !allInterior && (Bit(oldNormal, Hash(h)) || Bit(incompleteNormal, Hash(h)))
    }

    predicate OnStackList(h: nat)
      requires Valid()
    {
      Bit(oldStack, Hash(h)) || Bit(incompleteStack, Hash(h))
    }

    /** `n` blocks starting with block `h` had better not be used for an object that starts there. */
    ghost predicate BlackListed(h: nat, n: nat)
      requires Valid()
    {
      OnNormalList(h) || exists x :: h <= x < h + n && OnStackList(x)
    }

    /** The scan one block at a time: 0, or the address after the first bad block. */
    function ScanBlocks(h: nat, n: nat): (r: nat)
      requires Valid()
      decreases n
    {
      if n == 0 then 0 else if OnStackList(h) then h + 1 else ScanBlocks(h + 1, n - 1)
    }
  }

  lemma {:induction false} ScanSkips(l: Lists, h: nat, n: nat, k: nat)
    requires l.Valid() && k <= n && forall x :: h <= x < h + k ==> !l.OnStackList(x)
    ensures l.ScanBlocks(h, n) == l.ScanBlocks(h + k, n - k)
    decreases k
  {
    if k > 0 {
      ScanSkips(l, h + 1, n - 1, k - 1);
    }
  }

  lemma {:induction false} ScanFindsFirst(l: Lists, h: nat, n: nat)
    requires l.Valid()
    ensures var r := l.ScanBlocks(h, n);
      if r == 0 then forall x :: h <= x < h + n ==> !l.OnStackList(x)
      else h < r <= h + n && l.OnStackList(r - 1) && forall x :: h <= x < r - 1 ==> !l.OnStackList(x)
    decreases n
  {
    if n > 0 && !l.OnStackList(h) {
      ScanFindsFirst(l, h + 1, n - 1);
    }
  }

  /** If a word of both stack tables is zero, none of the blocks up to the end of that word is bad. */
  lemma ZeroWord(l: Lists, h: nat, x: nat)
    requires l.Valid() && l.oldStack[Hash(h) / WORDSZ] == 0 && l.incompleteStack[Hash(h) / WORDSZ] == 0
    requires h <= x < h + WORDSZ - Hash(h) % WORDSZ
    ensures !l.OnStackList(x)
  {
    SameWord(h, x);
    assert 0 / Pow2(Hash(x) % WORDSZ) == 0;
  }

  /** Up to the end of a word the hash counts on, because the table is a whole number of words. */
  lemma SameWord(h: nat, x: nat)
    requires h <= x < h + WORDSZ - Hash(h) % WORDSZ
    ensures Hash(x) / WORDSZ == Hash(h) / WORDSZ
  {
    var index := Hash(h) + (x - h);
    Remainder(Hash(h), WORDSZ);
    QuotientIs(index, WORDSZ, Hash(h) / WORDSZ);
    LastWordEnds(Hash(h) / WORDSZ);
    Remainder(h, PHT_ENTRIES);
    QuotientIs(x, PHT_ENTRIES, h / PHT_ENTRIES);
  }

  lemma LastWordEnds(w: nat)
    requires w < PHT_SIZE
    ensures w * WORDSZ + WORDSZ <= PHT_ENTRIES
  {
  }

  /** `GC_is_black_listed`, which skips whole words of the tables, answers like the scan of single blocks. */
  method IsBlackListed(l: Lists, h: nat, n: nat) returns (r: nat)
    requires l.Valid() && n >= 1
    ensures r == if l.OnNormalList(h) then h + 1 else l.ScanBlocks(h, n)
    ensures r == 0 <==> !l.BlackListed(h, n)
    ensures r != 0 ==> h < r <= h + n && forall s :: h <= s < r ==> l.BlackListed(s, n)
  {
    ScanFindsFirst(l, h, n);
    hide l.BlackListed;
    if l.OnNormalList(h) {
      return h + 1;
    }
    r := ScanStackLists(l, h, n);
  }

  /** Skipping the rest of a word that is zero in both stack tables makes no difference to the scan. */
  lemma WordSkips(l: Lists, h: nat, n: nat, skip: nat)
    requires l.Valid() && l.oldStack[Hash(h) / WORDSZ] == 0 && l.incompleteStack[Hash(h) / WORDSZ] == 0
    requires skip == WORDSZ - Hash(h) % WORDSZ
    ensures l.ScanBlocks(h, n) == if skip < n then l.ScanBlocks(h + skip, n - skip) else 0
  {
    hide Hash, Bit;
    forall x | h <= x < h + skip ensures !l.OnStackList(x) {
      ZeroWord(l, h, x);
    }
    ScanSkips(l, h, n, if skip <= n then skip else n);
  }

  lemma BlockSkips(l: Lists, h: nat, n: nat)
    requires l.Valid() && n >= 1
    ensures l.ScanBlocks(h, n) == if l.OnStackList(h) then h + 1 else if n > 1 then l.ScanBlocks(h + 1, n - 1) else 0
  {
  }

  /** The loop over the stack black lists, which skips words that are zero in both. */
  method ScanStackLists(l: Lists, h: nat, n: nat) returns (r: nat)
    requires l.Valid() && n >= 1
    ensures r == l.ScanBlocks(h, n)
  {
    hide Hash, Bit, l.ScanBlocks;
    var index := Hash(h);
    var i := 0;
    while true
      invariant 0 <= i < n && index == Hash(h + i)
      invariant l.ScanBlocks(h, n) == l.ScanBlocks(h + i, n - i)
      decreases n - i
    {
      if l.oldStack[index / WORDSZ] == 0 && l.incompleteStack[index / WORDSZ] == 0 {
        WordSkips(l, h + i, n - i, WORDSZ - index % WORDSZ);
        i := i + (WORDSZ - index % WORDSZ);
      } else {
        BlockSkips(l, h + i, n - i);
        if Bit(l.oldStack, index) || Bit(l.incompleteStack, index) {
          return h + i + 1;
        }
        i := i + 1;
      }
      if i >= n {
        return 0;
      }
      index := Hash(h + i);
    }
  }
}
