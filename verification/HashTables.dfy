/**
 The chained hash tables of the finalization code: disappearing links and finalizable objects.
 A table is refined to the finite map from keys to values that it stands for.
 */
module HashTables {
  import opened Powers

  // -----------------------------------------------------------------------------------
  // The hash function
  // -----------------------------------------------------------------------------------

  function Quotient(a: nat, m: nat): nat
    requires m > 0
  {
    a / m
  }

  function Mod(a: nat, m: nat): (r: nat)
    requires m > 0
    ensures r < m
  {
    a % m
  }

  /** `HASH2`: keys are addresses, so their low three bits do not count. */
  function Hash(key: nat, logSize: nat): (h: nat)
    ensures h < Pow2(logSize)
  {
    var k := key / 8;
    Mod(Xor(k, Quotient(k, Pow2(logSize))), Pow2(logSize))
  }

  // -----------------------------------------------------------------------------------
  // Tables of chains, and the maps they stand for
  // -----------------------------------------------------------------------------------

  datatype Entry<V> = Entry(key: nat, val: V)

  datatype Option<T> = None | Some(value: T)

  predicate Distinct<V>(chain: seq<Entry<V>>) {
    forall i, j :: 0 <= i < j < |chain| ==> chain[i].key != chain[j].key
  }

  /** Every key of `m` is in its own chain, once, with its value, and nothing else is anywhere. */
  ghost predicate Rep<V>(head: seq<seq<Entry<V>>>, logSize: nat, m: map<nat, V>) {
    && |head| == Pow2(logSize)
    && (forall b :: 0 <= b < |head| ==> Distinct(head[b]))
    && (forall b, j :: 0 <= b < |head| && 0 <= j < |head[b]| ==>
          var e := head[b][j]; Hash(e.key, logSize) == b && e.key in m && m[e.key] == e.val)
    && (forall k :: k in m ==> Entry(k, m[k]) in head[Hash(k, logSize)])
  }

  lemma RepEmpty<V>(head: seq<seq<Entry<V>>>, logSize: nat)
    requires |head| == Pow2(logSize) && forall b :: 0 <= b < |head| ==> head[b] == []
    ensures Rep(head, logSize, map[])
  {
  }

  lemma RepInsert<V>(head: seq<seq<Entry<V>>>, logSize: nat, m: map<nat, V>, e: Entry<V>)
    requires Rep(head, logSize, m) && e.key !in m
    ensures var b := Hash(e.key, logSize);
      Rep(head[b := [e] + head[b]], logSize, m[e.key := e.val])
  {
    var b := Hash(e.key, logSize);
    var z := head[b := [e] + head[b]];
    forall k | k in m ensures Entry(k, m[k]) in z[Hash(k, logSize)] {
      assert Entry(k, m[k]) in head[Hash(k, logSize)];
    }
    assert z[b][0] == e;
  }

  lemma RepDelete<V>(head: seq<seq<Entry<V>>>, logSize: nat, m: map<nat, V>, b: nat, j: nat)
    requires Rep(head, logSize, m) && b < |head| && j < |head[b]|
    ensures Rep(head[b := head[b][..j] + head[b][j + 1..]], logSize, m - {head[b][j].key})
  {
    var gone := head[b][j].key;
    var z := head[b := head[b][..j] + head[b][j + 1..]];
    assert forall i :: 0 <= i < |z[b]| ==> z[b][i] == head[b][if i < j then i else i + 1];
    forall k | k in m && k != gone ensures Entry(k, m[k]) in z[Hash(k, logSize)] {
      var h := Hash(k, logSize);
      var i :| 0 <= i < |head[h]| && head[h][i] == Entry(k, m[k]);
      if h == b {
        assert z[b][if i < j then i else i - 1] == head[b][i];
      }
    }
  }

  lemma RepReplace<V>(head: seq<seq<Entry<V>>>, logSize: nat, m: map<nat, V>, b: nat, j: nat, v: V)
    requires Rep(head, logSize, m) && b < |head| && j < |head[b]|
    ensures var k := head[b][j].key;
      Rep(head[b := head[b][j := Entry(k, v)]], logSize, m[k := v])
  {
    var gone := head[b][j].key;
    var z := head[b := head[b][j := Entry(gone, v)]];
    assert z[b][j] == Entry(gone, v);
    forall k | k in m && k != gone ensures Entry(k, m[k]) in z[Hash(k, logSize)] {
      var h := Hash(k, logSize);
      var i :| 0 <= i < |head[h]| && head[h][i] == Entry(k, m[k]);
      assert z[h][i] == head[h][i];
    }
  }

  lemma RepMember<V>(head: seq<seq<Entry<V>>>, logSize: nat, m: map<nat, V>, b: nat, j: nat)
    requires Rep(head, logSize, m) && b < |head| && j < |head[b]|
    ensures var e := head[b][j]; e.key in m && m[e.key] == e.val && Hash(e.key, logSize) == b
  {
  }

  lemma RepSize<V>(head: seq<seq<Entry<V>>>, logSize: nat, m: map<nat, V>)
    requires Rep(head, logSize, m)
    ensures |head| == Pow2(logSize)
  {
  }

  /** A table stands for one map only. */
  lemma RepUnique<V>(head: seq<seq<Entry<V>>>, logSize: nat, m: map<nat, V>, n: map<nat, V>)
    requires Rep(head, logSize, m) && Rep(head, logSize, n)
    ensures m == n
  {
    forall k | k in m ensures k in n && n[k] == m[k] {
      assert Entry(k, m[k]) in head[Hash(k, logSize)];
    }
    forall k | k in n ensures k in m {
      assert Entry(k, n[k]) in head[Hash(k, logSize)];
    }
  }

  // -----------------------------------------------------------------------------------
  // Moving the entries from one table to another
  // -----------------------------------------------------------------------------------

  /** The entries that have arrived and those that have not left yet. */
  datatype Moving<V> = Moving(done: map<nat, V>, rest: map<nat, V>)

  ghost predicate MovingOk<V>(chains: seq<seq<Entry<V>>>, logSize: nat, table: seq<seq<Entry<V>>>, newSize: nat,
                              m: Moving<V>, all: map<nat, V>)
  {
    && (if chains == [] then m.rest == map[] else Rep(chains, logSize, m.rest))
    && Rep(table, newSize, m.done)
    && m.rest.Keys !! m.done.Keys && all == m.rest + m.done
  }

  lemma StartMoving<V>(nonNull: bool, head: seq<seq<Entry<V>>>, logSize: nat, all: map<nat, V>,
                       table: seq<seq<Entry<V>>>, newSize: nat)
    requires if nonNull then Rep(head, logSize, all) else all == map[]
    requires |table| == Pow2(newSize) && forall b :: 0 <= b < |table| ==> table[b] == []
    ensures MovingOk(if nonNull then head else [], logSize, table, newSize, Moving(map[], all), all)
  {
  }

  /** The first entry of chain `i` goes to the front of its chain in the new table. */
  lemma MoveOne<V>(chains: seq<seq<Entry<V>>>, logSize: nat, table: seq<seq<Entry<V>>>, newSize: nat,
                   m: Moving<V>, all: map<nat, V>, i: nat) returns (z: Moving<V>)
    requires MovingOk(chains, logSize, table, newSize, m, all) && i < |chains| && chains[i] != []
    ensures |table| == Pow2(newSize)
    ensures var e := chains[i][0]; var b := Hash(e.key, newSize);
      MovingOk(chains[i := chains[i][1..]], logSize, table[b := [e] + table[b]], newSize, z, all)
  {
    hide Rep, Hash, Pow2;
    var e := chains[i][0];
    RepSize(table, newSize, m.done);
    RepMember(chains, logSize, m.rest, i, 0);
    RepDelete(chains, logSize, m.rest, i, 0);
    assert chains[i][..0] + chains[i][1..] == chains[i][1..];
    RepInsert(table, newSize, m.done, e);
    z := Moving(m.done[e.key := e.val], m.rest - {e.key});
  }

  lemma AllMoved<V>(chains: seq<seq<Entry<V>>>, logSize: nat, table: seq<seq<Entry<V>>>, newSize: nat,
                    m: Moving<V>, all: map<nat, V>)
    requires MovingOk(chains, logSize, table, newSize, m, all)
    requires forall b :: 0 <= b < |chains| ==> chains[b] == []
    ensures Rep(table, newSize, all)
  {
    if chains != [] {
      RepEmpty(chains, logSize);
      RepUnique(chains, logSize, m.rest, map[]);
    }
  }

  lemma MinusMinus<V>(m: map<nat, V>, key: nat, dead: set<nat>)
    requires key in dead
    ensures m - {key} - (dead - {key}) == m - dead
  {
  }

  // -----------------------------------------------------------------------------------
  // The table
  // -----------------------------------------------------------------------------------

  /** `GC_DUPLICATE`, `GC_SUCCESS`, `GC_NOT_FOUND`, `GC_NO_MEMORY`; `Aborted` if there is no memory for a first table. */
  datatype Outcome = Success | Duplicate | NotFound | NoMemory | Aborted

  /** An operation of another thread. */
  datatype Op<V> = Put(key: nat, val: V) | Drop(key: nat) | Grow

  /** The map after some operations of other threads. */
  function AfterOps<V>(m: map<nat, V>, ops: seq<Op<V>>): map<nat, V> {
    if ops == [] then m
    else
      var n := |ops| - 1;
      match ops[n]
      case Put(key, val) => AfterOps(m, ops[..n])[key := val]
      case Drop(key) => AfterOps(m, ops[..n]) - {key}
      case Grow => AfterOps(m, ops[..n])
  }

  function Growths<V>(ops: seq<Op<V>>): nat {
    if ops == [] then 0
    else
      var n := |ops| - 1;
      Growths(ops[..n]) + if ops[n].Grow? then 1 else 0
  }

  /**
   What happens around an operation: whether memory for a table or an entry can be had, whether
   the client's out-of-memory function gives some, what other threads do meanwhile, and which
   entries are deleted by a collection that growing the table starts, and by those that getting
   memory for a table or for an entry may start.
   */
  datatype Environment<V> = Environment(
    incremental: bool, memoryForTable: bool, memoryForEntry: bool, oomGives: bool, others: seq<Op<V>>,
    dead: set<nat>, deadAtTable: set<nat>, deadAtEntry: set<nat>)

  const WORD_RANGE: nat := 0x1_0000_0000_0000_0000

  /** Tables of at least this size are collected before they grow (`GC_ON_GROW_LOG_SIZE_MIN`). */
  const ON_GROW_LOG_SIZE_MIN: nat := 12

  class Table<V> {
    var nonNull: bool
    var head: seq<seq<Entry<V>>>
    var logSize: nat
    var entries: nat
    /** The map that the table stands for. */
    ghost var contents: map<nat, V>

    ghost predicate Valid()
      reads this
    {
      && entries == |contents|
      && if nonNull then Rep(head, logSize, contents) else contents == map[] && logSize == 0
    }

    constructor ()
      ensures Valid() && contents == map[] && !nonNull
    {
      nonNull, head, logSize, entries, contents := false, [], 0, 0, map[];
    }

    /** What is in a chain is in the map. */
    lemma InMap(b: nat, j: nat)
      requires Valid() && nonNull && b < |head| && j < |head[b]|
      ensures var e := head[b][j]; e.key in contents && contents[e.key] == e.val
    {
      RepMember(head, logSize, contents, b, j);
    }

    /** What is in the map is in a chain. */
    lemma InSomeChain(k: nat)
      requires Valid() && k in contents
      ensures nonNull && exists b :: 0 <= b < |head| && Entry(k, contents[k]) in head[b]
    {
      assert Entry(k, contents[k]) in head[Hash(k, logSize)];
    }

    /** The search that every operation starts with. */
    method Find(key: nat) returns (j: nat)
      requires Valid() && nonNull
      ensures var chain := head[Hash(key, logSize)];
        if key in contents then j < |chain| && chain[j] == Entry(key, contents[key]) else j == |chain|
    {
      var b := Hash(key, logSize);
      j := 0;
      while j < |head[b]| && head[b][j].key != key
        invariant 0 <= j <= |head[b]|
        invariant forall i :: 0 <= i < j ==> head[b][i].key != key
      {
        j := j + 1;
      }
      if key in contents {
        assert Entry(key, contents[key]) in head[b];
      }
    }

    /** A new entry goes to the front of its chain. */
    method Insert(key: nat, val: V)
      requires Valid() && nonNull && key !in contents
      modifies this`head, this`entries, this`contents
      ensures Valid() && contents == old(contents)[key := val]
    {
      RepInsert(head, logSize, contents, Entry(key, val));
      var b := Hash(key, logSize);
      head := head[b := [Entry(key, val)] + head[b]];
      entries := entries + 1;
      contents := contents[key := val];
    }

    /** The entry behind the first `j` of chain `b` is taken out. */
    method Delete(b: nat, j: nat)
      requires Valid() && nonNull && b < |head| && j < |head[b]|
      modifies this`head, this`entries, this`contents
      ensures Valid() && head == old(head[b := head[b][..j] + head[b][j + 1..]])
      ensures old(head[b][j].key in contents) && contents == old(contents - {head[b][j].key})
    {
      hide Rep, Pow2, Hash;
      RepDelete(head, logSize, contents, b, j);
      RepMember(head, logSize, contents, b, j);
      ghost var gone := head[b][j].key;
      assert contents.Keys == (contents - {gone}).Keys + {gone};
      head := head[b := head[b][..j] + head[b][j + 1..]];
      entries := entries - 1;
      contents := contents - {gone};
    }

    /** `GC_unregister_disappearing_link_inner`. */
    method Unregister(key: nat) returns (found: Option<V>)
      requires Valid()
      modifies this`head, this`entries, this`contents
      ensures Valid() && contents == old(contents) - {key}
      ensures found == if key in old(contents) then Some(old(contents[key])) else None
    {
      found := None;
      if nonNull {
        var b := Hash(key, logSize);
        var j := Find(key);
        if j < |head[b]| {
          found := Some(head[b][j].val);
          Delete(b, j);
        }
      }
    }

    /** `GC_move_disappearing_link_inner`. */
    method Move(key: nat, newKey: nat) returns (r: Outcome)
      requires Valid()
      modifies this`head, this`entries, this`contents
      ensures Valid()
      ensures r == if key !in old(contents) then NotFound
                   else if newKey in old(contents) && newKey != key then Duplicate else Success
      ensures contents == if r == Success then (old(contents) - {key})[newKey := old(contents[key])] else old(contents)
    {
      if !nonNull {
        return NotFound;
      }
      var b := Hash(key, logSize);
      var j := Find(key);
      if j == |head[b]| {
        return NotFound;
      } else if key == newKey {
        assert contents == (contents - {key})[key := contents[key]];
        return Success;
      }
      var newB := Hash(newKey, logSize);
      var newJ := Find(newKey);
      if newJ < |head[newB]| {
        return Duplicate;
      }
      var val := head[b][j].val;
      Delete(b, j);
      Insert(newKey, val);
      return Success;
    }

    /** The rehashing loops of `GC_grow_table`. */
    method Rehash()
      requires Valid()
      modifies this`head, this`nonNull, this`logSize
      ensures Valid() && nonNull && logSize == old(logSize) + 1
    {
      hide Rep, MovingOk, Pow2, Hash;
      var newSize := logSize + 1;
      var table: seq<seq<Entry<V>>> := seq(Pow2(newSize), i => []);
      var chains: seq<seq<Entry<V>>> := if nonNull then head else [];
      ghost var m: Moving<V> := Moving(map[], contents);
      StartMoving(nonNull, head, logSize, contents, table, newSize);
      ghost var n := |chains|;
      for i := 0 to |chains|
        invariant |chains| == n
        invariant MovingOk(chains, logSize, table, newSize, m, contents)
        invariant forall b :: 0 <= b < i ==> chains[b] == []
      {
        chains, table, m := RehashChain(chains, logSize, table, newSize, i, m, contents);
      }
      AllMoved(chains, logSize, table, newSize, m, contents);
      nonNull, head, logSize := true, table, newSize;
    }

    static method RehashChain(old_: seq<seq<Entry<V>>>, logSize: nat, new_: seq<seq<Entry<V>>>, newSize: nat,
                              i: nat, ghost before: Moving<V>, ghost all: map<nat, V>)
        returns (chains: seq<seq<Entry<V>>>, table: seq<seq<Entry<V>>>, ghost m: Moving<V>)
      requires i < |old_| && MovingOk(old_, logSize, new_, newSize, before, all)
      ensures chains == old_[i := []] && MovingOk(chains, logSize, table, newSize, m, all)
    {
      hide Rep, MovingOk, Pow2, Hash;
      chains, table, m := old_, new_, before;
      while chains[i] != []
        invariant |chains| == |old_| && chains == old_[i := chains[i]]
        invariant MovingOk(chains, logSize, table, newSize, m, all)
        decreases |chains[i]|
      {
        var e: Entry<V> := chains[i][0];
        var b := Hash(e.key, newSize);
        m := MoveOne(chains, logSize, table, newSize, m, all, i);
        chains := chains[i := chains[i][1..]];
        table := table[b := [e] + table[b]];
      }
    }

    // ---------------------------------------------------------------------------------
    // Registration
    // ---------------------------------------------------------------------------------

    /** What other threads do to the table while the lock is released. */
    method Others(ops: seq<Op<V>>)
      requires Valid() && nonNull
      modifies this`head, this`entries, this`contents, this`nonNull, this`logSize
      ensures Valid() && nonNull
      ensures contents == AfterOps(old(contents), ops) && logSize == old(logSize) + Growths(ops)
    {
      hide Rep, Hash, Pow2;
      for i := 0 to |ops|
        invariant Valid() && nonNull
        invariant contents == AfterOps(old(contents), ops[..i]) && logSize == old(logSize) + Growths(ops[..i])
      {
        assert ops[..i + 1][..i] == ops[..i];
        Other(ops[i]);
      }
      assert ops[..|ops|] == ops;
    }

    method Other(op: Op<V>)
      requires Valid() && nonNull
      modifies this`head, this`entries, this`contents, this`nonNull, this`logSize
      ensures Valid() && nonNull && logSize == old(logSize) + if op.Grow? then 1 else 0
      ensures contents == match op
        case Put(key, val) => old(contents)[key := val]
        case Drop(key) => old(contents) - {key}
        case Grow => old(contents)
    {
      hide Rep, Hash, Pow2;
      match op {
        case Drop(key) =>
          var _ := Unregister(key);
        case Put(key, val) =>
          var _ := Unregister(key);
          Insert(key, val);
        case Grow =>
          Rehash();
      }
    }

    /** What a collection does to the table: it deletes the entries whose objects are dead. */
    method Collect(dead: set<nat>)
      requires Valid()
      modifies this`head, this`entries, this`contents
      ensures Valid() && contents == old(contents) - dead && nonNull == old(nonNull)
      decreases dead
    {
      hide Valid;
      if dead != {} {
        var key :| key in dead;
        MinusMinus(contents, key, dead);
        var _ := Unregister(key);
        Collect(dead - {key});
      }
    }

    /** Growing starts a collection, unless the table is small or collections are incremental. */
    predicate Collects(env: Environment<V>)
      reads this`logSize
    {
      logSize >= ON_GROW_LOG_SIZE_MIN && !env.incremental
    }

    /** The contents after that collection. */
    ghost function Collected(env: Environment<V>): map<nat, V>
      reads this`logSize, this`contents
    {
      if Collects(env) then contents - env.dead else contents
    }

    /** The collection has deleted so many entries that the table need not grow. */
    ghost predicate NeedNotGrow(env: Environment<V>)
      reads this`logSize, this`contents
    {
      var n := |Collected(env)|;
      Collects(env) && n < (Pow2(logSize) - n / 4) % WORD_RANGE
    }

    /** What growing the table leaves of its contents. */
    ghost function Kept(env: Environment<V>): map<nat, V>
      reads this`logSize, this`contents
    {
      if NeedNotGrow(env) then Collected(env) else Collected(env) - env.deadAtTable
    }

    /** The table has to grow before anything is registered in it. */
    predicate MustGrow()
      reads this`nonNull, this`entries, this`logSize
    {
      !nonNull || entries > Pow2(logSize)
    }

    /** The map that an operation starts from: a table that is too full has grown before. */
    ghost function Before(env: Environment<V>): map<nat, V>
      reads this
    {
      if MustGrow() then Kept(env) else contents
    }

    /** The map that is current when an entry for `key` is put into the table, or found not to be needed. */
    ghost function AtEntry(env: Environment<V>, key: nat, needed: bool): map<nat, V>
      reads this
    {
      if key in Before(env) || !needed then Before(env) else Before(env) - env.deadAtEntry
    }

    /** There is no memory for a new entry, now or from the client's function, and one is needed. */
    ghost predicate Starves(env: Environment<V>, key: nat, needed: bool)
      reads this
    {
      key !in Before(env) && needed && !env.memoryForEntry && !env.oomGives
    }

    /** The map that the operation takes effect on: that of the moment, or what it is after the lock has been released. */
    ghost function Current(env: Environment<V>, key: nat, needed: bool): map<nat, V>
      reads this
    {
      var m := AtEntry(env, key, needed);
      if key !in Before(env) && needed && !env.memoryForEntry && env.oomGives then AfterOps(m, env.others) else m
    }

    /** `GC_grow_table`; a large table is collected first, which may make growing unnecessary. */
    method GrowTable(env: Environment<V>) returns (aborted: bool)
      requires Valid()
      modifies this`head, this`entries, this`contents, this`nonNull, this`logSize
      ensures Valid()
      ensures aborted <==> !old(nonNull) && !env.memoryForTable
      ensures aborted ==> contents == old(contents)
      ensures !aborted ==> nonNull && contents == old(Kept(env))
      ensures logSize == old(logSize) + if old(NeedNotGrow(env)) || !env.memoryForTable then 0 else 1
    {
      hide Rep, Hash, Pow2;
      if logSize >= ON_GROW_LOG_SIZE_MIN && !env.incremental {
        Collect(env.dead);
        if entries < (Pow2(logSize) - entries / 4) % WORD_RANGE {
          return false;
        }
      }
      Collect(env.deadAtTable);
      if !env.memoryForTable {
        return !nonNull;
      }
      Rehash();
      return false;
    }

    /**
     `GC_register_disappearing_link_inner`. The operation takes effect on the map `seen`: the one
     it starts from, less what a collection deletes while memory for the entry is got, unless it
     has had to release the lock for that.
     */
    method Register(key: nat, val: V, env: Environment<V>) returns (r: Outcome, ghost seen: map<nat, V>)
      requires Valid()
      modifies this`head, this`entries, this`contents, this`nonNull, this`logSize
      ensures Valid()
      ensures seen == if r == Aborted then old(contents) else old(Current(env, key, true))
      ensures r in {Success, Duplicate} ==> contents == seen[key := val]
      ensures r in {NoMemory, Aborted} ==> contents == seen
      ensures r == Duplicate ==> key in seen
      ensures r == Success ==> key !in seen
      ensures r == Aborted <==> !old(nonNull) && !env.memoryForTable
      ensures r == NoMemory <==> r != Aborted && old(Starves(env, key, true))
      ensures r != NotFound
    {
      hide Rep, Hash, Pow2;
      if MustGrow() {
        var aborted := GrowTable(env);
        if aborted {
          return Aborted, contents;
        }
      }
      seen := contents;
      var found := Replace(key, val);
      if found {
        return Duplicate, seen;
      }
      Collect(env.deadAtEntry);
      seen := contents;
      if !env.memoryForEntry {
        if !env.oomGives {
          return NoMemory, seen;
        }
        Others(env.others);
        seen := contents;
        found := Replace(key, val);
        if found {
          return Duplicate, seen;
        }
      }
      Insert(key, val);
      return Success, seen;
    }

    /** A registered key gets a new value where it is in its chain. */
    method Replace(key: nat, val: V) returns (found: bool)
      requires Valid() && nonNull
      modifies this`head, this`contents
      ensures Valid() && found == (key in old(contents))
      ensures contents == if found then old(contents)[key := val] else old(contents)
    {
      var b := Hash(key, logSize);
      var j := Find(key);
      found := j < |head[b]|;
      if found {
        RepReplace(head, logSize, contents, b, j, val);
        assert contents.Keys == contents[key := val].Keys;
        head := head[b := head[b][j := Entry(key, val)]];
        contents := contents[key := val];
      }
    }

    /**
     `GC_register_finalizer_inner`: registers, replaces or, without a finalizer, removes the
     entry of an object, and returns what was registered before.
     */
    method RegisterFinalizer(key: nat, val: Option<V>, hasHeader: bool, env: Environment<V>)
        returns (r: Outcome, prev: Option<V>, ghost seen: map<nat, V>)
      requires Valid()
      modifies this`head, this`entries, this`contents, this`nonNull, this`logSize
      ensures Valid()
      ensures seen == if r == Aborted then old(contents) else old(Current(env, key, val.Some? && hasHeader))
      ensures r == Success ==> prev == if key in seen then Some(seen[key]) else None
      ensures r == Success ==>
                contents == if val.None? then seen - {key}
                            else if key in seen || hasHeader then seen[key := val.value] else seen
      ensures r != Success ==> contents == seen
      ensures r == Aborted <==> !old(nonNull) && !env.memoryForTable
      ensures r == NoMemory <==> r != Aborted && old(Starves(env, key, val.Some? && hasHeader))
      ensures r in {Success, NoMemory, Aborted}
    {
      hide Rep, Hash, Pow2, Kept, NeedNotGrow, Collected, AfterOps;
      if MustGrow() {
        var aborted := GrowTable(env);
        if aborted {
          return Aborted, None, contents;
        }
      }
      seen := contents;
      var found;
      found, prev := Exchange(key, val);
      if found {
        return Success, prev, seen;
      }
      if val.None? || !hasHeader {
        return Success, None, seen;
      }
      r, prev, seen := Enter(key, val.value, env);
    }

    /** Gets memory for the entry of an object that has none, and puts it into the table. */
    method Enter(key: nat, val: V, env: Environment<V>) returns (r: Outcome, prev: Option<V>, ghost seen: map<nat, V>)
      requires Valid() && nonNull && key !in contents
      modifies this`head, this`entries, this`contents, this`nonNull, this`logSize
      ensures Valid()
      ensures r == if env.memoryForEntry || env.oomGives then Success else NoMemory
      ensures seen == if !env.memoryForEntry && env.oomGives then AfterOps(old(contents) - env.deadAtEntry, env.others)
                      else old(contents) - env.deadAtEntry
      ensures r == Success ==> prev == (if key in seen then Some(seen[key]) else None) && contents == seen[key := val]
      ensures r == NoMemory ==> contents == seen
    {
      hide Rep, Hash, Pow2;
      Collect(env.deadAtEntry);
      seen := contents;
      if !env.memoryForEntry {
        if !env.oomGives {
          return NoMemory, None, seen;
        }
        Others(env.others);
        seen := contents;
        var found;
        found, prev := Exchange(key, Some(val));
        if found {
          return Success, prev, seen;
        }
      }
      Insert(key, val);
      return Success, None, seen;
    }

    /** The entry of a registered object is removed, or gets a new finalizer. */
    method Exchange(key: nat, val: Option<V>) returns (found: bool, prev: Option<V>)
      requires Valid() && nonNull
      modifies this`head, this`entries, this`contents
      ensures Valid() && found == (key in old(contents))
      ensures prev == if found then Some(old(contents[key])) else None
      ensures contents == if !found then old(contents) else if val.None? then old(contents) - {key}
                          else old(contents)[key := val.value]
    {
      prev := None;
      if val.None? {
        prev := Unregister(key);
        found := prev.Some?;
      } else {
        var b := Hash(key, logSize);
        var j := Find(key);
        if j < |head[b]| {
          prev := Some(head[b][j].val);
        }
        found := Replace(key, val.value);
      }
    }
  }

  // -----------------------------------------------------------------------------------
  // The entry count
  // -----------------------------------------------------------------------------------

  /** The number of cells in all chains together. */
  function Cells<V>(head: seq<seq<Entry<V>>>): nat {
    if head == [] then 0 else |head[0]| + Cells(head[1..])
  }

  lemma {:induction false} CellsUpdate<V>(head: seq<seq<Entry<V>>>, b: nat, chain: seq<Entry<V>>)
    requires b < |head|
    ensures Cells(head[b := chain]) == Cells(head) - |head[b]| + |chain|
  {
    if b == 0 {
      assert head[b := chain][1..] == head[1..];
    } else {
      CellsUpdate(head[1..], b - 1, chain);
      assert head[b := chain][1..] == head[1..][b - 1 := chain];
    }
  }

  lemma {:induction false} CellsEmpty<V>(head: seq<seq<Entry<V>>>)
    requires forall b :: 0 <= b < |head| ==> head[b] == []
    ensures Cells(head) == 0
  {
    if head != [] {
      CellsEmpty(head[1..]);
    }
  }

  /** The table's chains hold exactly as many cells as its map has keys: `entries` is exact. */
  lemma {:induction false} EntriesAreCells<V>(head: seq<seq<Entry<V>>>, logSize: nat, m: map<nat, V>)
    requires Rep(head, logSize, m)
    ensures Cells(head) == |m|
    decreases |m|
  {
    hide Rep, Cells, Hash, Pow2;
    if b: nat :| b < |head| && head[b] != [] {
      var k := head[b][0].key;
      RepMember(head, logSize, m, b, 0);
      RepDelete(head, logSize, m, b, 0);
      CellsUpdate(head, b, head[b][..0] + head[b][1..]);
      assert m.Keys == (m - {k}).Keys + {k};
      EntriesAreCells(head[b := head[b][..0] + head[b][1..]], logSize, m - {k});
    } else {
      CellsEmpty(head);
      RepSize(head, logSize, m);
      RepEmpty(head, logSize);
      RepUnique(head, logSize, m, map[]);
    }
  }
}
