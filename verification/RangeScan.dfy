/**
 How the marker scans the memory described by length descriptors: long ranges are split, shared
 with other markers in halves, and read from both ends.

 Addresses and lengths count units of the pointer alignment, and a word has `word` of them.
 With pointers aligned to words that is one; otherwise the words at neighbouring addresses overlap.
 */
module RangeScan {

  datatype Range = Range(start: nat, len: nat)

  const SPLIT_RANGE_WORDS: nat := 128
  /** Ranges above this many words are shared with other markers. */
  const SHARE_WORDS: nat := 256
  /** The credit for one call: the words of a heap block. */
  const CREDIT_WORDS: nat := 512

  /** What a plain scan of the range looks at: the addresses at which a whole word fits. */
  ghost function Slots(r: Range, word: nat): (s: set<nat>) {
    Interval(r.start, r.start + r.len - word + 1)
  }

  ghost function Interval(from: nat, to: int): (s: set<nat>)
    ensures (forall p: nat :: p in s <==> from <= p < to)
    decreases if to <= from then 0 else to - from
  {
    if to <= from then {} else Interval(from, to - 1) + {to - 1}
  }

  lemma IntervalLast(from: nat, to: nat)
    requires from < to
    ensures Interval(from, to) == Interval(from, to - 1) + {to - 1}
  {
  }

  lemma IntervalFirst(from: nat, to: nat)
    requires from < to
    ensures Interval(from, to) == Interval(from + 1, to) + {from}
  {
  }

  lemma IntervalEmpty(from: nat, to: int)
    requires to <= from
    ensures Interval(from, to) == {}
  {
  }

  lemma NoSlots(r: Range, word: nat)
    requires r.len < word
    ensures Slots(r, word) == {}
  {
  }

  ghost function StackSlots(stack: seq<Range>, word: nat): set<nat>
  {
    set k: nat, p: nat | k < |stack| && p in Slots(stack[k], word) :: p
  }

  ghost function ObjectSlots(objects: set<nat>, extent: seq<Range>, word: nat): set<nat>
    requires forall o :: o in objects ==> o < |extent|
  {
    set o: nat, p: nat | o in objects && p in Slots(extent[o], word) :: p
  }

  lemma StackSlotsPush(stack: seq<Range>, r: Range, word: nat)
    ensures StackSlots(stack + [r], word) == StackSlots(stack, word) + Slots(r, word)
  {
    hide Slots;
    var s := stack + [r];
    forall p: nat | p in StackSlots(stack, word) + Slots(r, word) ensures p in StackSlots(s, word) {
      if p in StackSlots(stack, word) {
        var k: nat :| k < |stack| && p in Slots(stack[k], word);
        assert s[k] == stack[k];
      } else {
        assert s[|stack|] == r;
      }
    }
    forall p: nat | p in StackSlots(s, word) ensures p in StackSlots(stack, word) + Slots(r, word) {
      var k: nat :| k < |s| && p in Slots(s[k], word);
      assert k < |stack| ==> s[k] == stack[k];
    }
  }

  lemma StackSlotsPop(stack: seq<Range>, word: nat)
    requires |stack| > 0
    ensures StackSlots(stack, word) == StackSlots(stack[..|stack| - 1], word) + Slots(stack[|stack| - 1], word)
  {
    StackSlotsPush(stack[..|stack| - 1], stack[|stack| - 1], word);
    assert stack == stack[..|stack| - 1] + [stack[|stack| - 1]];
  }

  lemma ObjectSlotsAdd(objects: set<nat>, o: nat, extent: seq<Range>, word: nat)
    requires (forall x :: x in objects ==> x < |extent|) && o < |extent|
    ensures ObjectSlots(objects + {o}, extent, word) == ObjectSlots(objects, extent, word) + Slots(extent[o], word)
  {
    hide Slots;
    var all := ObjectSlots(objects + {o}, extent, word);
    forall p: nat | p in ObjectSlots(objects, extent, word) + Slots(extent[o], word) ensures p in all {
      if p in ObjectSlots(objects, extent, word) {
        var x: nat :| x in objects && p in Slots(extent[x], word);
        assert x in objects + {o};
      } else {
        assert o in objects + {o};
      }
    }
  }

  lemma ObjectSlotsMonotone(objects: set<nat>, more: set<nat>, extent: seq<Range>, word: nat)
    requires objects <= more && forall x :: x in more ==> x < |extent|
    ensures ObjectSlots(objects, extent, word) <= ObjectSlots(more, extent, word)
  {
    forall p | p in ObjectSlots(objects, extent, word) ensures p in ObjectSlots(more, extent, word) {
      var o: nat :| o in objects && p in Slots(extent[o], word);
      assert o in more;
    }
  }

  // -----------------------------------------------------------------------------------
  // How much there is left to do
  // -----------------------------------------------------------------------------------

  /** Splitting with an overlap of a word makes this smaller. */
  ghost function Excess(r: Range, word: nat): nat {
    if r.len >= 2 * word then r.len - 2 * word else 0
  }

  ghost function TotalExcess(stack: seq<Range>, word: nat): nat {
    if stack == [] then 0
    else TotalExcess(stack[..|stack| - 1], word) + Excess(stack[|stack| - 1], word)
  }

  lemma TotalExcessPush(stack: seq<Range>, r: Range, word: nat)
    ensures TotalExcess(stack + [r], word) == TotalExcess(stack, word) + Excess(r, word)
  {
    assert (stack + [r])[..|stack|] == stack;
  }

  /** Less to do: fewer unmarked objects, or else less to split, or else fewer ranges. */
  ghost predicate LessToDo(unmarked: nat, excess: nat, ranges: nat, unmarked': nat, excess': nat, ranges': nat) {
    || unmarked < unmarked'
    || (unmarked == unmarked' && (excess < excess' || (excess == excess' && ranges < ranges')))
  }

  /** Half of a length, in whole words. */
  function HalfInWords(len: nat, word: nat): (half: nat)
    requires 0 < word
    ensures half <= len / 2 < half + word
  {
    len / 2 - len / 2 % word
  }

  class Scanner {
    const word: nat
    /** The memory, with pointers found at an address. */
    const contents: nat -> nat
    /** Which words point to, or into, which objects. */
    const pointees: map<nat, nat>
    const extent: seq<Range>
    /** The bounds between which all objects lie. */
    const leastHa: nat
    const greatestHa: nat
    const parallel: bool
    const stackSize: nat

    var stack: seq<Range>
    var marked: set<nat>
    /** The slots that have been dealt with. */
    ghost var done: set<nat>
    /** The length of all ranges that have been scanned. */
    ghost var scanned: nat

    ghost predicate Valid()
      reads this`marked
    {
      && 0 < word <= 8
      && (forall v :: v in pointees ==> leastHa <= v < greatestHa && pointees[v] < |extent|)
      && (forall o :: o in marked ==> o < |extent|)
    }

    ghost function Unmarked(): set<nat>
      reads this`marked
    {
      Interval(0, |extent|) - marked
    }

    /** What a word points to has been marked. */
    ghost predicate Seen(p: nat)
      reads this`marked
    {
      contents(p) in pointees ==> pointees[contents(p)] in marked
    }

    /** No pointer in the slots of `given` or of the objects of `c` leads elsewhere than to `c` or `marked0`. */
    ghost predicate Closed(c: set<nat>, given: set<nat>, marked0: set<nat>) {
      && (forall o :: o in c ==> o < |extent|)
      && (forall p :: p in given + ObjectSlots(c, extent, word) && contents(p) in pointees ==>
            pointees[contents(p)] in c + marked0)
    }

    /** The marker has dealt with, or will deal with, exactly the slots of `given` and of the objects marked since. */
    ghost predicate Accounted(given: set<nat>, marked0: set<nat>, rest: set<nat>)
      requires Valid()
      reads this`stack, this`marked, this`done
    {
      Accounts(given, marked0, rest, stack, marked, done)
    }

    ghost predicate Accounts(given: set<nat>, marked0: set<nat>, rest: set<nat>, stack: seq<Range>, marked: set<nat>, done: set<nat>)
      requires word > 0 && forall o :: o in marked ==> o < |extent|
    {
      && marked0 <= marked
      && done + rest + StackSlots(stack, word) == given + ObjectSlots(marked - marked0, extent, word)
      && (forall p :: p in done && contents(p) in pointees ==> pointees[contents(p)] in marked)
      && (forall c :: Closed(c, given, marked0) ==> marked - marked0 <= c)
    }

    /** An object that a slot points to is marked, and its range is pushed: the slot has been dealt with. */
    lemma PushAccounts(o: nat, slot: nat, given: set<nat>, marked0: set<nat>, rest: set<nat>)
      requires Valid() && Accounted(given, marked0, rest + {slot})
      requires contents(slot) in pointees && pointees[contents(slot)] == o && o !in marked
      ensures Accounts(given, marked0, rest, stack + [extent[o]], marked + {o}, done + {slot})
    {
      hide Slots, StackSlots, ObjectSlots, Closed;
      StackSlotsPush(stack, extent[o], word);
      IsInEveryClosedSet(slot, given, marked0, rest);
      ObjectSlotsAdd(marked - marked0, o, extent, word);
      assert marked + {o} - marked0 == marked - marked0 + {o};
    }

    predicate Plausible(w: nat) {
      leastHa <= w < greatestHa
    }

    ghost function Excesses(): nat
      reads this`stack
    {
      TotalExcess(stack, word)
    }

    /** Nothing was undone: objects stay marked, and either one more is or the stack is as it was. */
    twostate predicate OnlyMarks()
      reads this
    {
      && old(marked) <= marked && old(done) <= done
      && ((stack == old(stack) && marked == old(marked)) || |Unmarked()| < old(|Unmarked()|))
    }

    /** An object that a slot points to and that is not marked yet can be reached. */
    lemma IsInEveryClosedSet(slot: nat, given: set<nat>, marked0: set<nat>, rest: set<nat>)
      requires Valid() && Accounted(given, marked0, rest + {slot})
      requires contents(slot) in pointees && pointees[contents(slot)] !in marked
      ensures forall c :: Closed(c, given, marked0) ==> pointees[contents(slot)] in c
    {
      hide Slots, StackSlots, ObjectSlots;
      forall c | Closed(c, given, marked0) ensures pointees[contents(slot)] in c {
        ObjectSlotsMonotone(marked - marked0, c, extent, word);
        assert slot in given + ObjectSlots(c, extent, word);
      }
    }

    /** `PUSH_CONTENTS`: marks the object that `current` points to and pushes its range, unless it is marked. */
    method PushContents(current: nat, ghost slot: nat, ghost given: set<nat>, ghost marked0: set<nat>, ghost rest: set<nat>)
      requires Valid() && contents(slot) == current && Accounted(given, marked0, rest + {slot})
      modifies this
      ensures Valid() && Accounted(given, marked0, rest) && OnlyMarks()
      ensures done == old(done) + {slot} && scanned == old(scanned)
    {
      hide Accounts;
      if current in pointees && pointees[current] !in marked {
        var o := pointees[current];
        PushAccounts(o, slot, given, marked0, rest);
        FewerUnmarked(o);
        marked := marked + {o};
        stack := stack + [extent[o]];
      } else {
        SkipAccounts(slot, given, marked0, rest);
      }
      done := done + {slot};
    }

    lemma SkipAccounts(slot: nat, given: set<nat>, marked0: set<nat>, rest: set<nat>)
      requires Valid() && Accounted(given, marked0, rest + {slot})
      requires contents(slot) in pointees ==> pointees[contents(slot)] in marked
      ensures Accounts(given, marked0, rest, stack, marked, done + {slot})
    {
      hide Slots, StackSlots, ObjectSlots, Closed;
    }

    lemma FewerUnmarked(o: nat)
      requires o < |extent| && o !in marked
      ensures |Interval(0, |extent|) - (marked + {o})| < |Unmarked()|
    {
      assert Unmarked() == Interval(0, |extent|) - (marked + {o}) + {o};
    }

    /** A word outside the bounds of the heap is no pointer. */
    ghost method Skip(slot: nat, given: set<nat>, marked0: set<nat>, rest: set<nat>)
      requires Valid() && !Plausible(contents(slot)) && Accounted(given, marked0, rest + {slot})
      modifies this`done
      ensures Valid() && Accounted(given, marked0, rest)
      ensures done == old(done) + {slot}
    {
      hide Slots, StackSlots, ObjectSlots;
      done := done + {slot};
    }

    /** The last plausible word of a range. The words after it are skipped. */
    method FindDeferred(start: nat, last: nat, ghost given: set<nat>, ghost marked0: set<nat>)
      returns (found: bool, deferred: nat, limit: int)
      requires Valid() && start <= last && Accounted(given, marked0, Interval(start, last + 1))
      modifies this`done
      ensures Valid() && old(done) <= done
      ensures found ==> start - 1 <= limit < last && deferred == contents(limit + 1)
      ensures Accounted(given, marked0, if found then Interval(start, limit + 2) else {})
    {
      hide Accounted, Interval;
      found, limit := true, last;
      while true
        invariant Valid() && found && start <= limit <= last && old(done) <= done
        invariant Accounted(given, marked0, Interval(start, limit + 1))
        decreases limit
      {
        deferred := contents(limit);
        limit := limit - 1;
        if Plausible(deferred) {
          return;
        }
        IntervalLast(start, limit + 2);
        Skip(limit + 1, given, marked0, Interval(start, limit + 1));
        if start > limit {
          IntervalEmpty(start, limit + 1);
          found := false;
          return;
        }
        deferred := contents(limit);
        limit := limit - 1;
        if Plausible(deferred) {
          return;
        }
        IntervalLast(start, limit + 2);
        Skip(limit + 1, given, marked0, Interval(start, limit + 1));
        if start > limit {
          IntervalEmpty(start, limit + 1);
          found := false;
          return;
        }
      }
    }

    /** The loop over the words of a range: the last plausible one is read first and pushed last. */
    method ScanRange(start: nat, len: nat, ghost given: set<nat>, ghost marked0: set<nat>)
      requires Valid() && len >= word && Accounted(given, marked0, Slots(Range(start, len), word))
      modifies this
      ensures Valid() && Accounted(given, marked0, {}) && OnlyMarks()
      ensures scanned == old(scanned) + len
    {
      hide Accounted, Interval, TotalExcess, Unmarked;
      scanned := scanned + len;
      var found, deferred, limit := FindDeferred(start, start + len - word, given, marked0);
      if !found {
        return;
      }
      var currentP := start;
      IntervalLast(start, limit + 2);
      while currentP <= limit
        invariant Valid() && start <= currentP <= limit + 1
        invariant Accounted(given, marked0, Interval(currentP, limit + 1) + {limit + 1})
        invariant OnlyMarks() && scanned == old(scanned) + len
      {
        var current := contents(currentP);
        IntervalFirst(currentP, limit + 1);
        ghost var rest := Interval(currentP + 1, limit + 1) + {limit + 1};
        assert Interval(currentP, limit + 1) + {limit + 1} == rest + {currentP};
        if Plausible(current) {
          PushContents(current, currentP, given, marked0, rest);
        } else {
          Skip(currentP, given, marked0, rest);
        }
        currentP := currentP + 1;
      }
      IntervalEmpty(currentP, limit + 1);
      assert Interval(currentP, limit + 1) + {limit + 1} == {} + {limit + 1};
      PushContents(deferred, limit + 1, given, marked0, {});
    }

    /** Halves long ranges, leaving the first half, and a word more, for others. */
    method Share(ghost given: set<nat>, ghost marked0: set<nat>)
      requires Valid() && stack != [] && Accounted(given, marked0, {})
      modifies this`stack
      ensures Valid() && stack != [] && Accounted(given, marked0, {})
      ensures stack == old(stack) || Excesses() < old(Excesses())
      ensures !parallel ==> stack == old(stack)
      ensures parallel ==> stack[|stack| - 1].len <= SHARE_WORDS * word || |stack| >= stackSize
      ensures old(stack[|stack| - 1]).len <= SHARE_WORDS * word ==> stack == old(stack)
      ensures |stack| <= old(|stack|) || |stack| <= stackSize
    {
      hide Accounted, TotalExcess, Slots;
      while parallel && stack[|stack| - 1].len > SHARE_WORDS * word && |stack| < stackSize
        invariant Valid() && stack != [] && Accounted(given, marked0, {})
        invariant stack == old(stack) || (parallel && Excesses() < old(Excesses()))
        invariant old(stack[|stack| - 1]).len <= SHARE_WORDS * word ==> stack == old(stack)
        invariant |stack| <= old(|stack|) || |stack| <= stackSize
        decreases Excesses()
      {
        var top := stack[|stack| - 1];
        var newSize := HalfInWords(top.len, word);
        Halve(given, marked0, Range(top.start, newSize + word), Range(top.start + newSize, top.len - newSize));
      }
    }

    /** Replaces the top of the stack by two ranges that cover it. */
    method Halve(ghost given: set<nat>, ghost marked0: set<nat>, first: Range, second: Range)
      requires Valid() && stack != [] && Accounted(given, marked0, {})
      requires first.len >= 2 * word && second.len >= 2 * word && first.start + first.len == second.start + word
      requires var top := stack[|stack| - 1];
        top.start == first.start && top.start + top.len == second.start + second.len
      modifies this`stack
      ensures Valid() && |stack| == old(|stack|) + 1 && Accounted(given, marked0, {})
      ensures Excesses() < old(Excesses())
    {
      hide StackSlots, ObjectSlots, TotalExcess;
      ghost var top, rest := stack[|stack| - 1], stack[..|stack| - 1];
      StackSlotsPop(stack, word);
      StackSlotsPush(rest, first, word);
      StackSlotsPush(rest + [first], second, word);
      assert Slots(top, word) == Slots(first, word) + Slots(second, word);
      TotalExcessPush(rest, first, word);
      TotalExcessPush(rest + [first], second, word);
      assert stack == rest + [top];
      TotalExcessPush(rest, top, word);
      stack := stack[..|stack| - 1] + [first] + [second];
    }

    /** Takes from the top of the stack what is to be scanned at once: all of it, or a part and the words reaching into the rest. */
    method TakeRange(ghost given: set<nat>, ghost marked0: set<nat>) returns (range: Range)
      requires Valid() && stack != [] && Accounted(given, marked0, {})
      modifies this`stack
      ensures Valid() && Accounted(given, marked0, Slots(range, word))
      ensures range.start == old(stack[|stack| - 1]).start && range.len < SPLIT_RANGE_WORDS * word
      ensures Excesses() < old(Excesses()) || (Excesses() == old(Excesses()) && |stack| < old(|stack|))
    {
      hide StackSlots, ObjectSlots, TotalExcess;
      range := stack[|stack| - 1];
      var below := stack[..|stack| - 1];
      StackSlotsPop(stack, word);
      assert stack == below + [range];
      TotalExcessPush(below, range, word);
      stack := below;
      if range.len >= SPLIT_RANGE_WORDS * word {
        var part := (SPLIT_RANGE_WORDS - 1) * word;
        ghost var whole := range;
        var rest := Range(range.start + part, range.len - part);
        range := Range(range.start, part + word - 1);
        assert Slots(whole, word) == Slots(range, word) + Slots(rest, word);
        StackSlotsPush(below, rest, word);
        TotalExcessPush(below, rest, word);
        stack := stack + [rest];
      }
    }

    /** `GC_mark_from`, for stacks of ranges. */
    method MarkFrom(ghost given: set<nat>, ghost marked0: set<nat>)
      requires Valid() && Accounted(given, marked0, {})
      modifies this
      ensures Valid() && Accounted(given, marked0, {}) && old(marked) <= marked
      ensures old(stack) != [] ==>
        LessToDo(|Unmarked()|, Excesses(), |stack|, old(|Unmarked()|), old(Excesses()), old(|stack|))
      // About a heap block is scanned before the call returns.
      ensures stack == [] || scanned > old(scanned) + CREDIT_WORDS * word
      ensures old(scanned) <= scanned <= old(scanned) + (CREDIT_WORDS + SPLIT_RANGE_WORDS) * word
    {
      hide Accounted, Slots, TotalExcess, Unmarked;
      var credit: int := CREDIT_WORDS * word;
      while stack != [] && credit >= 0
        invariant Valid() && Accounted(given, marked0, {}) && old(marked) <= marked
        invariant scanned - old(scanned) == CREDIT_WORDS * word - credit
        invariant credit <= CREDIT_WORDS * word && credit + SPLIT_RANGE_WORDS * word >= 0
        invariant (stack == old(stack) && marked == old(marked) && credit >= 0)
          || LessToDo(|Unmarked()|, Excesses(), |stack|, old(|Unmarked()|), old(Excesses()), old(|stack|))
        decreases |Unmarked()|, Excesses(), |stack|
      {
        Share(given, marked0);
        var range := TakeRange(given, marked0);
        if range.len < word {
          NoSlots(range, word);
          continue;
        }
        credit := credit - range.len;
        ScanRange(range.start, range.len, given, marked0);
      }
    }

    /** Calling the marker until the stack is empty. */
    method Drain()
      requires Valid() && done == {}
      modifies this
      ensures Valid() && stack == [] && old(marked) <= marked
      // Exactly what plain scans of the given ranges and of the objects found look at has been looked at.
      ensures done == old(StackSlots(stack, word)) + ObjectSlots(marked - old(marked), extent, word)
      ensures forall p :: p in done ==> Seen(p)
      // The objects found are those that can be reached from the given ranges, and no more.
      ensures Closed(marked - old(marked), old(StackSlots(stack, word)), old(marked))
      ensures forall c :: Closed(c, old(StackSlots(stack, word)), old(marked)) ==> marked - old(marked) <= c
    {
      ghost var given, marked0 := StackSlots(stack, word), marked;
      NothingFoundYet();
      Repeat(given, marked0);
      assert StackSlots(stack, word) == {};
    }

    method Repeat(ghost given: set<nat>, ghost marked0: set<nat>)
      requires Valid() && Accounted(given, marked0, {})
      modifies this
      ensures Valid() && Accounted(given, marked0, {}) && stack == [] && old(marked) <= marked
    {
      hide Accounted, TotalExcess, Unmarked;
      while stack != []
        invariant Valid() && Accounted(given, marked0, {}) && old(marked) <= marked
        decreases |Unmarked()|, Excesses(), |stack|
      {
        MarkFrom(given, marked0);
      }
    }

    lemma NothingFoundYet()
      requires Valid() && done == {}
      ensures Accounted(StackSlots(stack, word), marked, {})
    {
      assert marked - marked == {};
      assert ObjectSlots({}, extent, word) == {};
    }
  }
}
