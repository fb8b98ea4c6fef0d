/** The nesting scan of event payloads, and the block-indexed store of converted events. */
module EvmEvents {
  import opened Wrappers
  import opened Numeric

  // ----- nesting

  type Byte = b: int | 0 <= b < 256

  predicate Opens(b: Byte) {
    b == '[' as int || b == '{' as int || b == '(' as int
  }

  predicate Closes(b: Byte) {
    b == ']' as int || b == '}' as int || b == ')' as int
  }

  /** Openers less closers. */
  function Excess(bytes: seq<Byte>): int {
    if bytes == [] then 0
    else
      var last := bytes[|bytes| - 1];
      Excess(bytes[..|bytes| - 1]) + if Opens(last) then 1 else if Closes(last) then -1 else 0
  }

  ghost predicate IsGreatestExcessTo(bytes: seq<Byte>, end: nat, depth: nat)
    requires end <= |bytes|
  {
    && (exists i | 0 <= i <= end :: Excess(bytes[i..end]) == depth)
    && (forall i | 0 <= i <= end :: Excess(bytes[i..end]) <= depth)
  }

  /** `depth` is the greatest excess over all contiguous slices. */
  ghost predicate IsGreatestExcess(bytes: seq<Byte>, depth: nat) {
    && (exists i, k | 0 <= i <= k <= |bytes| :: Excess(bytes[i..k]) == depth)
    && (forall i, k | 0 <= i <= k <= |bytes| :: Excess(bytes[i..k]) <= depth)
  }

  lemma ExcessSnoc(bytes: seq<Byte>, i: nat, k: nat)
    requires i <= k < |bytes|
    ensures Excess(bytes[i..k + 1]) ==
            Excess(bytes[i..k]) + if Opens(bytes[k]) then 1 else if Closes(bytes[k]) then -1 else 0
  {
    assert bytes[i..k + 1][..k - i] == bytes[i..k];
  }

  /** One byte more: the depth of suffixes goes up, down to zero at least, or stays. */
  lemma SuffixDepthStep(bytes: seq<Byte>, k: nat, depth: nat)
    requires k < |bytes| && IsGreatestExcessTo(bytes, k, depth)
    ensures IsGreatestExcessTo(bytes, k + 1,
              if Opens(bytes[k]) then depth + 1 else if Closes(bytes[k]) then SaturatingSub(depth, 1) else depth)
  {
    var next := if Opens(bytes[k]) then depth + 1 else if Closes(bytes[k]) then SaturatingSub(depth, 1) else depth;
    var end := k + 1;
    forall i | 0 <= i <= end ensures Excess(bytes[i..end]) <= next {
      if i <= k {
        ExcessSnoc(bytes, i, k);
      } else {
        assert bytes[i..end] == [];
      }
    }
    var i :| 0 <= i <= k && Excess(bytes[i..k]) == depth;
    ExcessSnoc(bytes, i, k);
    if Excess(bytes[i..k + 1]) != next {
      assert bytes[k + 1..k + 1] == [];
      assert Excess(bytes[k + 1..k + 1]) == next;
    }
  }

  /** One pass whose depth sticks at zero finds the greatest excess of openers over closers in any slice. */
  method CalculateNestingLevel(payload: seq<Byte>) returns (maxNesting: nat)
    ensures IsGreatestExcess(payload, maxNesting)
  {
    maxNesting := 0;
    var currentNesting: nat := 0;
    assert payload[0..0] == [];
    for k := 0 to |payload|
      invariant IsGreatestExcessTo(payload, k, currentNesting)
      invariant exists i, j | 0 <= i <= j <= k :: Excess(payload[i..j]) == maxNesting
      invariant forall i, j | 0 <= i <= j <= k :: Excess(payload[i..j]) <= maxNesting
    {
      SuffixDepthStep(payload, k, currentNesting);
      if Opens(payload[k]) {
        currentNesting := currentNesting + 1;
        maxNesting := if currentNesting > maxNesting then currentNesting else maxNesting;
      } else if Closes(payload[k]) {
        currentNesting := SaturatingSub(currentNesting, 1);
      }
      forall i, j | 0 <= i <= j <= k + 1 ensures Excess(payload[i..j]) <= maxNesting {
        if j == k + 1 {
          assert Excess(payload[i..k + 1]) <= currentNesting;
        }
      }
    }
  }

  // ----- the event store

  const MAX_EVENTS_PER_BLOCK: nat := 100

  datatype EvmEvent = EvmEvent(eventType: u32, body: seq<Byte>)

  type Store = map<nat, seq<EvmEvent>>

  function EventsAt(store: Store, block: nat): seq<EvmEvent> {
    if block in store then store[block] else []
  }

  predicate Matches(filter: Option<u32>, e: EvmEvent) {
    filter == None || filter.value == e.eventType
  }

  /** The matching events of one block, tagged with the block, in order. */
  function Tagged(block: nat, events: seq<EvmEvent>, filter: Option<u32>): seq<(nat, EvmEvent)> {
    if events == [] then []
    else
      var n := |events| - 1;
      Tagged(block, events[..n], filter) + if Matches(filter, events[n]) then [(block, events[n])] else []
  }

  lemma TaggedOneMore(block: nat, events: seq<EvmEvent>, i: nat, filter: Option<u32>)
    requires i < |events|
    ensures Tagged(block, events[..i + 1], filter) ==
            Tagged(block, events[..i], filter) + if Matches(filter, events[i]) then [(block, events[i])] else []
  {
    assert events[..i + 1][..i] == events[..i];
  }

  /** The matching events of the blocks from `lo` up to but not including `end`. */
  function Matching(store: Store, filter: Option<u32>, lo: nat, end: nat): seq<(nat, EvmEvent)> {
    if end <= lo then []
    else Matching(store, filter, lo, end - 1) + Tagged(end - 1, EventsAt(store, end - 1), filter)
  }

  /** The answer to a query over the closed range of blocks. */
  function Query(store: Store, filter: Option<u32>, lo: nat, hi: nat): seq<(nat, EvmEvent)> {
    Matching(store, filter, lo, hi + 1)
  }

  class Index {
    var events: Store

    /** A full block silently drops further events. */
    method StoreEvmEvent(block: nat, e: EvmEvent)
      modifies this
      ensures events == old(events)[block :=
                if |EventsAt(old(events), block)| < MAX_EVENTS_PER_BLOCK then EventsAt(old(events), block) + [e]
                else EventsAt(old(events), block)]
    {
      var stored := EventsAt(events, block);
      if |stored| < MAX_EVENTS_PER_BLOCK {
        stored := stored + [e];
      }
      events := events[block := stored];
    }

    method QueryEvmEvents(filter: Option<u32>, lo: nat, hi: nat) returns (results: seq<(nat, EvmEvent)>)
      ensures results == Query(events, filter, lo, hi)
    {
      results := [];
      if hi < lo {
        return;
      }
      for block := lo to hi + 1
        invariant results == Matching(events, filter, lo, block)
      {
        results := PushMatching(results, block, EventsAt(events, block), filter);
      }
    }

    /** The pass over one block's events, which pushes the matching ones. */
    method PushMatching(before: seq<(nat, EvmEvent)>, block: nat, stored: seq<EvmEvent>, filter: Option<u32>)
      returns (results: seq<(nat, EvmEvent)>)
      ensures results == before + Tagged(block, stored, filter)
    {
      results := before;
      for i := 0 to |stored|
        invariant results == before + Tagged(block, stored[..i], filter)
      {
        TaggedOneMore(block, stored, i, filter);
        if Matches(filter, stored[i]) {
          results := results + [(block, stored[i])];
        }
      }
      assert stored[..|stored|] == stored;
    }

    method CleanupOldEvmEvents(block: nat, keepBlocks: nat)
      modifies this
      ensures events == Cleaned(old(events), SaturatingSub(block, keepBlocks))
    {
      var cutoff := SaturatingSub(block, keepBlocks);
      for b := 0 to cutoff
        invariant events == map k | k in old(events) && b <= k :: old(events)[k]
      {
        events := events - {b};
      }
    }
  }

  function Cleaned(store: Store, cutoff: nat): Store {
    map b | b in store && cutoff <= b :: store[b]
  }

  lemma {:induction false} MatchingSplits(store: Store, filter: Option<u32>, lo: nat, mid: nat, end: nat)
    requires lo <= mid <= end
    ensures Matching(store, filter, lo, end) == Matching(store, filter, lo, mid) + Matching(store, filter, mid, end)
    decreases end
  {
    if mid < end {
      MatchingSplits(store, filter, lo, mid, end - 1);
    }
  }

  /** A range can be asked for in two parts. */
  lemma QuerySplits(store: Store, filter: Option<u32>, a: nat, b: nat, c: nat)
    requires a <= b + 1 && b <= c
    ensures Query(store, filter, a, c) == Query(store, filter, a, b) + Query(store, filter, b + 1, c)
  {
    MatchingSplits(store, filter, a, b + 1, c + 1);
  }

  lemma {:induction false} TaggedSplits(block: nat, xs: seq<EvmEvent>, ys: seq<EvmEvent>, filter: Option<u32>)
    ensures Tagged(block, xs + ys, filter) == Tagged(block, xs, filter) + Tagged(block, ys, filter)
  {
    if ys == [] {
      assert xs + ys == xs;
    } else {
      var n := |ys| - 1;
      TaggedSplits(block, xs, ys[..n], filter);
      assert (xs + ys)[..|xs| + n] == xs + ys[..n];
    }
  }

  lemma OneBlock(store: Store, filter: Option<u32>, block: nat)
    ensures Query(store, filter, block, block) == Tagged(block, if block in store then store[block] else [], filter)
  {
    assert Matching(store, filter, block, block) == [];
  }

  /** Within a block the answers keep the order and the number of the stored events: what is stored in two parts is answered in two parts. */
  lemma BlockAnswersInOrder(store: Store, filter: Option<u32>, block: nat, xs: seq<EvmEvent>, ys: seq<EvmEvent>)
    ensures Query(store[block := xs + ys], filter, block, block) ==
            Query(store[block := xs], filter, block, block) + Query(store[block := ys], filter, block, block)
  {
    OneBlock(store[block := xs + ys], filter, block);
    OneBlock(store[block := xs], filter, block);
    OneBlock(store[block := ys], filter, block);
    TaggedSplits(block, xs, ys, filter);
  }

  /** A single event is answered, under its block, exactly when there is no filter or it has the type asked for. */
  lemma OneEventAnswers(store: Store, filter: Option<u32>, block: nat, e: EvmEvent)
    ensures Query(store[block := [e]], filter, block, block) ==
            if filter == None || filter == Some(e.eventType) then [(block, e)] else []
    ensures block !in store ==> Query(store, filter, block, block) == []
  {
    OneBlock(store[block := [e]], filter, block);
    OneBlock(store, filter, block);
    assert [e][..0] == [];
  }

  lemma {:induction false} TaggedHas(block: nat, events: seq<EvmEvent>, filter: Option<u32>, hit: (nat, EvmEvent))
    ensures hit in Tagged(block, events, filter) <==> hit.0 == block && hit.1 in events && Matches(filter, hit.1)
  {
    if events != [] {
      var n := |events| - 1;
      TaggedHas(block, events[..n], filter, hit);
      assert events == events[..n] + [events[n]];
    }
  }

  /** A query answers exactly the stored matching events of its range. */
  lemma {:induction false} MatchingHas(store: Store, filter: Option<u32>, lo: nat, end: nat, hit: (nat, EvmEvent))
    ensures hit in Matching(store, filter, lo, end) <==>
            lo <= hit.0 < end && hit.1 in EventsAt(store, hit.0) && Matches(filter, hit.1)
    decreases end
  {
    if lo < end {
      MatchingHas(store, filter, lo, end - 1, hit);
      TaggedHas(end - 1, EventsAt(store, end - 1), filter, hit);
    }
  }

  lemma {:induction false} MatchingAgrees(store: Store, other: Store, filter: Option<u32>, lo: nat, end: nat)
    requires forall b | lo <= b < end :: EventsAt(store, b) == EventsAt(other, b)
    ensures Matching(store, filter, lo, end) == Matching(other, filter, lo, end)
    decreases end
  {
    if lo < end {
      MatchingAgrees(store, other, filter, lo, end - 1);
    }
  }

  lemma {:induction false} MatchingEmpty(store: Store, filter: Option<u32>, lo: nat, end: nat)
    requires forall b | lo <= b < end :: EventsAt(store, b) == []
    ensures Matching(store, filter, lo, end) == []
    decreases end
  {
    if lo < end {
      MatchingEmpty(store, filter, lo, end - 1);
    }
  }

  /** After a clean-up a query sees nothing below the cutoff and everything from it on. */
  lemma CleanupKeepsAnswers(store: Store, filter: Option<u32>, lo: nat, hi: nat, cutoff: nat)
    ensures Query(Cleaned(store, cutoff), filter, lo, hi) == Query(store, filter, if lo < cutoff then cutoff else lo, hi)
  {
    var cleaned := Cleaned(store, cutoff);
    var start := if lo < cutoff then cutoff else lo;
    if lo < start {
      if start <= hi + 1 {
        MatchingSplits(cleaned, filter, lo, start, hi + 1);
        MatchingEmpty(cleaned, filter, lo, start);
      } else {
        MatchingEmpty(cleaned, filter, lo, hi + 1);
      }
    }
    MatchingAgrees(cleaned, store, filter, start, hi + 1);
  }
}
