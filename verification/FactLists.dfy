/** Lists kept as slot and length facts behind a pending-over-committed overlay. */
module FactLists {
  import opened Wrappers

  /** Slot indices and lengths are 32-bit. */
  const U32: nat := 0x1_0000_0000

  type Domain = int
  type Element = int

  datatype ListKey = Slot(key: Domain, index: nat) | Len(key: Domain)

  datatype ListFact = Item(item: Element) | Length(len: nat)

  type Facts = map<ListKey, ListFact>
  type Overlay = map<ListKey, Option<ListFact>>

  /** `as u32` */
  function Truncated(n: nat): nat {
    n % U32
  }

  /** `Pending::read`: an own earlier write, else the committed fact. */
  function Lookup(committed: Facts, pending: Overlay, k: ListKey): Option<ListFact> {
    if k in pending then pending[k]
    else if k in committed then Some(committed[k])
    else None
  }

  function SlotFact(s: seq<Element>, i: nat): Option<ListFact> {
    if i < |s| then Some(Item(s[i])) else None
  }

  /** The slots under `key` hold exactly the items of `s`. */
  ghost predicate SlotsHold(committed: Facts, pending: Overlay, key: Domain, s: seq<Element>) {
    forall i: nat :: i < U32 ==> Lookup(committed, pending, Slot(key, i)) == SlotFact(s, i)
  }

  function LenOf(committed: Facts, pending: Overlay, key: Domain): nat {
    var fact := Lookup(committed, pending, Len(key));
    if fact.Some? && fact.value.Length? then fact.value.len else 0
  }

  /** The facts under `key` refine the sequence `s`: slot `i` is present exactly when `i` is below
      the length. */
  ghost predicate Holds(committed: Facts, pending: Overlay, key: Domain, s: seq<Element>) {
    && |s| < U32 && LenOf(committed, pending, key) == |s|
    && SlotsHold(committed, pending, key, s)
  }

  /** Facts under other keys are what they were. */
  ghost predicate OthersKept(committed: Facts, before: Overlay, now: Overlay, key: Domain) {
    forall k: ListKey :: k.key != key ==> Lookup(committed, now, k) == Lookup(committed, before, k)
  }

  /** `ListEmit` */
  class ListEmit {
    const committed: Facts
    var pending: Overlay

    constructor (committed: Facts)
      ensures this.committed == committed && pending == map[]
    {
      this.committed := committed;
      pending := map[];
    }

    /** `Pending::write` */
    method Write(k: ListKey, value: Option<ListFact>)
      modifies this
      ensures pending == old(pending)[k := value]
    {
      pending := pending[k := value];
    }

    method CommittedLen(key: Domain) returns (len: nat)
      ensures len == LenOf(committed, pending, key)
    {
      var fact := Lookup(committed, pending, Len(key));
      len := if fact.Some? && fact.value.Length? then fact.value.len else 0;
    }

    method CommittedItem(key: Domain, index: nat) returns (item: Option<Element>)
      ensures var fact := Lookup(committed, pending, Slot(key, Truncated(index)));
        item == if fact.Some? && fact.value.Item? then Some(fact.value.item) else None
    {
      var fact := Lookup(committed, pending, Slot(key, Truncated(index)));
      item := if fact.Some? && fact.value.Item? then Some(fact.value.item) else None;
    }

    /** `push`: appends, unless the length is already at the 32-bit maximum. */
    method Push(key: Domain, item: Element, ghost s: seq<Element>)
      requires Holds(committed, pending, key, s)
      modifies this
      ensures OthersKept(committed, old(pending), pending, key)
      ensures |s| + 1 < U32 ==> Holds(committed, pending, key, s + [item])
      ensures |s| + 1 == U32 ==> forall t :: !Holds(committed, pending, key, t)
    {
      var len := CommittedLen(key);
      Write(Slot(key, len), Some(Item(item)));
      Write(Len(key), Some(Length(if len + 1 < U32 then len + 1 else U32 - 1)));
      if |s| + 1 < U32 {
        forall i: nat | i < U32
          ensures Lookup(committed, pending, Slot(key, i)) == SlotFact(s + [item], i)
        {
          assert Lookup(committed, old(pending), Slot(key, i)) == SlotFact(s, i);
        }
      } else {
        forall t ensures !Holds(committed, pending, key, t) {
          assert Lookup(committed, pending, Slot(key, len)) == Some(Item(item));
        }
      }
    }

    /** `set`: overwrites the slot the truncated index names; a list stays a list exactly when
        that slot is below the length. */
    method Set(key: Domain, index: nat, item: Element, ghost s: seq<Element>)
      requires Holds(committed, pending, key, s)
      modifies this
      ensures OthersKept(committed, old(pending), pending, key)
      ensures index < |s| ==> Holds(committed, pending, key, s[index := item])
      ensures Truncated(index) < |s| <==> exists t :: Holds(committed, pending, key, t)
    {
      Write(Slot(key, Truncated(index)), Some(Item(item)));
      ghost var at := Truncated(index);
      if at < |s| {
        forall i: nat | i < U32
          ensures Lookup(committed, pending, Slot(key, i)) == SlotFact(s[at := item], i)
        {
          assert Lookup(committed, old(pending), Slot(key, i)) == SlotFact(s, i);
        }
        assert Holds(committed, pending, key, s[at := item]);
      } else {
        forall t ensures !Holds(committed, pending, key, t) {
          assert Lookup(committed, pending, Slot(key, at)) == Some(Item(item));
        }
      }
    }

    /** `remove`: drops one slot and shifts the tail left; out of range it does nothing. */
    method Remove(key: Domain, index: nat, ghost s: seq<Element>)
      requires Holds(committed, pending, key, s)
      modifies this
      ensures OthersKept(committed, old(pending), pending, key)
      ensures Holds(committed, pending, key, if index < |s| then s[..index] + s[index + 1..] else s)
    {
      var len := CommittedLen(key);
      if index >= len { return; }
      ShiftLeft(key, index, s);
      ghost var before := pending;
      Write(Slot(key, Truncated(len - 1)), None);
      Write(Len(key), Some(Length(Truncated(len - 1))));
      LastDropped(committed, before, pending, key, Shifted(s, index, len - 1));
      ShiftedLast(s, index);
    }

    /** The loop of `remove`. */
    method ShiftLeft(key: Domain, index: nat, ghost s: seq<Element>)
      requires index < |s| && Holds(committed, pending, key, s)
      modifies this
      ensures OthersKept(committed, old(pending), pending, key)
      ensures SlotsHold(committed, pending, key, Shifted(s, index, |s| - 1))
    {
      var len := CommittedLen(key);
      ShiftedFirst(s, index);
      for j := index + 1 to len
        invariant OthersKept(committed, old(pending), pending, key)
        invariant SlotsHold(committed, pending, key, Shifted(s, index, j - 1))
      {
        ShiftedStep(s, index, j);
        MoveDown(key, j, Shifted(s, index, j - 1));
      }
    }

    /** Copies one slot onto the one before it. */
    method MoveDown(key: Domain, j: nat, ghost s: seq<Element>)
      requires 0 < j < |s| < U32 && SlotsHold(committed, pending, key, s)
      modifies this
      ensures OthersKept(committed, old(pending), pending, key)
      ensures SlotsHold(committed, pending, key, s[j - 1 := s[j]])
    {
      ghost var before := pending;
      assert Lookup(committed, pending, Slot(key, j)) == SlotFact(s, j);
      var item := CommittedItem(key, j);
      Write(Slot(key, Truncated(j - 1)), if item.Some? then Some(Item(item.value)) else None);
      SlotWritten(committed, before, pending, key, s, j - 1, s[j]);
    }

    /** `replace`: for any list a 32-bit length can count. */
    method Replace(key: Domain, items: seq<Element>, ghost s: seq<Element>)
      requires Holds(committed, pending, key, s)
      modifies this
      ensures OthersKept(committed, old(pending), pending, key)
      ensures |items| < U32 ==> Holds(committed, pending, key, items)
    {
      var oldLen := CommittedLen(key);
      WriteAll(key, items, s);
      RetractFrom(key, |items|, oldLen, Overlaid(s, items, |items|));
      ghost var before := pending;
      Write(Len(key), Some(Length(Truncated(|items|))));
      if |items| < U32 {
        assert Overlaid(s, items, |items|)[..|items|] == items;
        LengthWritten(committed, before, pending, key, items);
      }
    }

    /** The writing loop of `replace`. */
    method WriteAll(key: Domain, items: seq<Element>, ghost s: seq<Element>)
      requires Holds(committed, pending, key, s)
      modifies this
      ensures OthersKept(committed, old(pending), pending, key)
      ensures |items| < U32 ==> SlotsHold(committed, pending, key, Overlaid(s, items, |items|))
    {
      assert Overlaid(s, items, 0) == s;
      for i := 0 to |items|
        invariant OthersKept(committed, old(pending), pending, key)
        invariant |items| < U32 ==> SlotsHold(committed, pending, key, Overlaid(s, items, i))
      {
        WriteOne(key, items, i, s);
      }
    }

    method WriteOne(key: Domain, items: seq<Element>, i: nat, ghost s: seq<Element>)
      requires i < |items| && |s| < U32
      modifies this
      ensures OthersKept(committed, old(pending), pending, key)
      ensures |items| < U32 && old(SlotsHold(committed, pending, key, Overlaid(s, items, i)))
        ==> SlotsHold(committed, pending, key, Overlaid(s, items, i + 1))
    {
      Write(Slot(key, Truncated(i)), Some(Item(items[i])));
      if |items| < U32 && old(SlotsHold(committed, pending, key, Overlaid(s, items, i))) {
        OverlaidStep(committed, old(pending), pending, key, s, items, i);
      }
    }

    /** The retraction loop of `replace` and `clear`. */
    method RetractFrom(key: Domain, from: nat, to: nat, ghost s: seq<Element>)
      modifies this
      ensures OthersKept(committed, old(pending), pending, key)
      ensures to < U32 && old(SlotsHold(committed, pending, key, s)) && |s| == (if from < to then to else from)
        ==> SlotsHold(committed, pending, key, s[..from])
    {
      if from >= to {
        assert |s| == from ==> s[..from] == s;
        return;
      }
      for i := from to to
        invariant OthersKept(committed, old(pending), pending, key)
        invariant to < U32 && old(SlotsHold(committed, pending, key, s)) && |s| == to
          ==> forall k: nat :: k < U32 ==>
                Lookup(committed, pending, Slot(key, k)) == if from <= k < i then None else SlotFact(s, k)
      {
        Write(Slot(key, Truncated(i)), None);
      }
    }

    /** `clear` */
    method Clear(key: Domain, ghost s: seq<Element>)
      requires Holds(committed, pending, key, s)
      modifies this
      ensures OthersKept(committed, old(pending), pending, key)
      ensures Holds(committed, pending, key, [])
    {
      var oldLen := CommittedLen(key);
      RetractFrom(key, 0, oldLen, s);
      ghost var before := pending;
      assert s[..0] == [];
      Write(Len(key), Some(Length(0)));
      LengthWritten(committed, before, pending, key, []);
    }
  }

  lemma LengthWritten(committed: Facts, before: Overlay, now: Overlay, key: Domain, s: seq<Element>)
    requires |s| < U32 && SlotsHold(committed, before, key, s)
    requires now == before[Len(key) := Some(Length(|s|))]
    ensures Holds(committed, now, key, s)
  {
    forall k: nat | k < U32 ensures Lookup(committed, now, Slot(key, k)) == SlotFact(s, k) {
      assert Lookup(committed, before, Slot(key, k)) == SlotFact(s, k);
    }
  }

  /** `s` while its tail is being shifted: slots `index..to` already hold their successors. */
  ghost function Shifted(s: seq<Element>, index: nat, to: nat): (r: seq<Element>)
    requires index <= to < |s|
    ensures |r| == |s|
  {
    s[..index] + s[index + 1..to + 1] + s[to..]
  }

  /** `items` written over the first `n` slots of `s`. */
  ghost function Overlaid(s: seq<Element>, items: seq<Element>, n: nat): seq<Element>
    requires n <= |items|
  {
    items[..n] + if n < |s| then s[n..] else []
  }

  lemma ShiftedFirst(s: seq<Element>, index: nat)
    requires index < |s|
    ensures Shifted(s, index, index) == s
  {
  }

  lemma ShiftedStep(s: seq<Element>, index: nat, j: nat)
    requires index < j < |s|
    ensures Shifted(s, index, j - 1)[j] == s[j]
    ensures Shifted(s, index, j - 1)[j - 1 := s[j]] == Shifted(s, index, j)
  {
  }

  lemma ShiftedLast(s: seq<Element>, index: nat)
    requires index < |s|
    ensures Shifted(s, index, |s| - 1)[..|s| - 1] == s[..index] + s[index + 1..]
  {
  }

  lemma OverlaidAt(s: seq<Element>, items: seq<Element>, i: nat, k: nat)
    requires i < |items|
    ensures SlotFact(Overlaid(s, items, i + 1), k)
         == if k == i then Some(Item(items[i])) else SlotFact(Overlaid(s, items, i), k)
  {
  }

  lemma OverlaidStep(committed: Facts, before: Overlay, now: Overlay, key: Domain, s: seq<Element>,
                     items: seq<Element>, i: nat)
    requires i < |items| < U32 && |s| < U32 && SlotsHold(committed, before, key, Overlaid(s, items, i))
    requires now == before[Slot(key, i) := Some(Item(items[i]))]
    ensures SlotsHold(committed, now, key, Overlaid(s, items, i + 1))
  {
    forall k: nat | k < U32
      ensures Lookup(committed, now, Slot(key, k)) == SlotFact(Overlaid(s, items, i + 1), k)
    {
      assert Lookup(committed, before, Slot(key, k)) == SlotFact(Overlaid(s, items, i), k);
      OverlaidAt(s, items, i, k);
    }
  }

  lemma SlotWritten(committed: Facts, before: Overlay, now: Overlay, key: Domain, s: seq<Element>, i: nat,
                    item: Element)
    requires i < |s| < U32 && SlotsHold(committed, before, key, s)
    requires now == before[Slot(key, i) := Some(Item(item))]
    ensures SlotsHold(committed, now, key, s[i := item])
  {
    forall k: nat | k < U32 ensures Lookup(committed, now, Slot(key, k)) == SlotFact(s[i := item], k) {
      assert Lookup(committed, before, Slot(key, k)) == SlotFact(s, k);
    }
  }

  lemma LastDropped(committed: Facts, before: Overlay, now: Overlay, key: Domain, s: seq<Element>)
    requires 0 < |s| < U32 && SlotsHold(committed, before, key, s)
    requires now == before[Slot(key, |s| - 1) := None][Len(key) := Some(Length(|s| - 1))]
    ensures Holds(committed, now, key, s[..|s| - 1])
  {
    forall k: nat | k < U32 ensures Lookup(committed, now, Slot(key, k)) == SlotFact(s[..|s| - 1], k) {
      assert Lookup(committed, before, Slot(key, k)) == SlotFact(s, k);
    }
  }
}
