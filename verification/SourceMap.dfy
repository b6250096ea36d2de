/** The coordinate map of one revision: unchanged islands between the splices. */
module SourceMap {
  import opened Wrappers
  import opened SourceText
  import opened SourceEdits

  /** `UnchangedIsland` */
  datatype Island = Island(oldStart: nat, oldEnd: nat, newStart: nat, newEnd: nat, delta: int)

  /** Normalized splices, from the given cursors on: in order, and each new range placed by the
      unchanged text before it. */
  predicate Normalized(splices: seq<Splice>, old0: nat, new0: nat, oldLen: nat, newLen: nat) {
    if splices == [] then old0 <= oldLen && newLen == new0 + (oldLen - old0)
    else
      var s := splices[0];
      && old0 <= s.oldStart <= s.oldEnd && s.newStart <= s.newEnd
      && s.newStart == new0 + (s.oldStart - old0)
      && Normalized(splices[1..], s.oldEnd, s.newEnd, oldLen, newLen)
  }

  /** Every accepted batch yields such splices. */
  lemma {:induction false} DescribedNormalized(base: Text, splices: seq<Splice>, inserted: seq<Text>,
                                               repls: seq<Repl>, n: nat)
    requires Ordered(repls, 0, |base|) && Describes(splices, inserted, repls) && n <= |repls|
    ensures var old0 := if n == 0 then 0 else repls[n - 1].end;
      && old0 + Shift(repls, n) >= 0
      && Normalized(splices[n..], old0, old0 + Shift(repls, n), |base|, |Replaced(base, repls, 0)|)
    decreases |repls| - n
  {
    ReplacedFront(base, repls, n);
    OrderedBounds(repls, 0, |base|);
    if n < |repls| {
      DescribedNormalized(base, splices, inserted, repls, n + 1);
      PlacedNext(splices, inserted, repls, n);
      assert splices[n..][0] == splices[n] && splices[n..][1..] == splices[n + 1..];
    } else {
      ReplacedLength(base, repls);
    }
  }

  // ------------------------------------------------------------------ build

  function IslandBefore(old0: nat, new0: nat, end: nat): seq<Island> {
    if end > old0 then [Island(old0, end, new0, new0 + (end - old0), new0 - old0)] else []
  }

  /** The complement of the splices. */
  function Islands(splices: seq<Splice>, old0: nat, new0: nat, oldLen: nat): seq<Island> {
    if splices == [] then IslandBefore(old0, new0, oldLen)
    else
      IslandBefore(old0, new0, splices[0].oldStart)
      + Islands(splices[1..], splices[0].oldEnd, splices[0].newEnd, oldLen)
  }

  /** Halfway: what is built and the complement of the remaining splices make the whole. */
  ghost predicate Building(islands: seq<Island>, splices: seq<Splice>, i: nat, old0: nat, new0: nat,
                           oldLen: nat, newLen: nat) {
    && i <= |splices| && Normalized(splices[i..], old0, new0, oldLen, newLen)
    && islands + Islands(splices[i..], old0, new0, oldLen) == Islands(splices, 0, 0, oldLen)
  }

  lemma BuildNext(islands: seq<Island>, splices: seq<Splice>, i: nat, old0: nat, new0: nat, oldLen: nat, newLen: nat)
    requires i < |splices| && Building(islands, splices, i, old0, new0, oldLen, newLen)
    ensures var s := splices[i];
      Building(islands + IslandBefore(old0, new0, s.oldStart), splices, i + 1, s.oldEnd, s.newEnd, oldLen, newLen)
  {
    var s := splices[i];
    assert splices[i..][0] == s && splices[i..][1..] == splices[i + 1..];
    var gap, rest := IslandBefore(old0, new0, s.oldStart), Islands(splices[i + 1..], s.oldEnd, s.newEnd, oldLen);
    assert islands + (gap + rest) == islands + gap + rest;
  }

  lemma BuildLast(islands: seq<Island>, splices: seq<Splice>, old0: nat, new0: nat, oldLen: nat, newLen: nat)
    requires Building(islands, splices, |splices|, old0, new0, oldLen, newLen)
    ensures old0 <= oldLen && newLen == new0 + (oldLen - old0)
    ensures islands + IslandBefore(old0, new0, oldLen) == Islands(splices, 0, 0, oldLen)
  {
    assert splices[|splices|..] == [];
  }

  /** `SourceCoordinateMap::build` */
  method Build(oldLen: nat, newLen: nat, splices: seq<Splice>) returns (islands: seq<Island>)
    requires Normalized(splices, 0, 0, oldLen, newLen)
    ensures islands == Islands(splices, 0, 0, oldLen)
  {
    islands := [];
    var oldCursor: nat, newCursor: nat := 0, 0;
    assert splices[0..] == splices;
    for i := 0 to |splices|
      invariant Building(islands, splices, i, oldCursor, newCursor, oldLen, newLen)
    {
      var s := splices[i];
      BuildNext(islands, splices, i, oldCursor, newCursor, oldLen, newLen);
      if s.oldStart > oldCursor {
        var span := s.oldStart - oldCursor;
        islands := islands + [Island(oldCursor, s.oldStart, newCursor, newCursor + span, newCursor - oldCursor)];
      }
      oldCursor, newCursor := s.oldEnd, s.newEnd;
    }
    BuildLast(islands, splices, oldCursor, newCursor, oldLen, newLen);
    if oldCursor < oldLen {
      var tail := oldLen - oldCursor;
      assert newCursor + tail == newLen;
      islands := islands + [Island(oldCursor, oldLen, newCursor, newCursor + tail, newCursor - oldCursor)];
    } else {
      assert newCursor == newLen;
    }
  }

  // ------------------------------------------------------------------ map_old_to_new

  /** The island holds old position `at`, and has it at new position `to`. */
  predicate Carries(island: Island, at: nat, to: nat) {
    island.oldStart <= at < island.oldEnd && to == island.newStart + (at - island.oldStart)
  }

  /** How many leading islands start at or before `at`. */
  function PartitionPoint(islands: seq<Island>, at: nat): (n: nat)
    ensures n <= |islands|
  {
    if islands == [] || islands[0].oldStart > at then 0 else 1 + PartitionPoint(islands[1..], at)
  }

  /** `map_old_to_new`: the new coordinate and the island it came from. */
  function MapOldToNew(islands: seq<Island>, at: nat): (r: Option<(nat, nat)>)
    ensures r.Some? ==> r.value.1 < |islands| && Carries(islands[r.value.1], at, r.value.0)
  {
    var point := PartitionPoint(islands, at);
    var index := if point == 0 then 0 else point - 1;
    if index >= |islands| then None
    else
      var island := islands[index];
      if island.oldStart <= at < island.oldEnd then Some((island.newStart + (at - island.oldStart), index))
      else None
  }

  /** Islands lie in order, each as long in the new text as in the old one, and moved by `delta`. */
  ghost predicate InOrder(islands: seq<Island>, from: nat) {
    && (forall i :: 0 <= i < |islands| ==>
          && from <= islands[i].oldStart < islands[i].oldEnd
          && islands[i].newEnd - islands[i].newStart == islands[i].oldEnd - islands[i].oldStart
          && islands[i].delta == islands[i].newStart - islands[i].oldStart)
    && forall i, j :: 0 <= i < j < |islands| ==> islands[i].oldEnd <= islands[j].oldStart
  }

  lemma {:induction false} IslandsRegular(splices: seq<Splice>, old0: nat, new0: nat, oldLen: nat, newLen: nat)
    requires Normalized(splices, old0, new0, oldLen, newLen)
    ensures InOrder(Islands(splices, old0, new0, oldLen), old0)
  {
    if splices != [] {
      var s := splices[0];
      IslandsRegular(splices[1..], s.oldEnd, s.newEnd, oldLen, newLen);
      BeforeInOrder(old0, new0, s.oldStart);
      var rest := Islands(splices[1..], s.oldEnd, s.newEnd, oldLen);
      InOrderJoin(IslandBefore(old0, new0, s.oldStart), rest, old0, s.oldEnd);
    } else {
      BeforeInOrder(old0, new0, oldLen);
    }
  }

  lemma BeforeInOrder(old0: nat, new0: nat, end: nat)
    ensures InOrder(IslandBefore(old0, new0, end), old0)
    ensures forall i :: 0 <= i < |IslandBefore(old0, new0, end)| ==> IslandBefore(old0, new0, end)[i].oldEnd == end
  {
  }

  lemma InOrderJoin(first: seq<Island>, rest: seq<Island>, from: nat, next: nat)
    requires InOrder(first, from) && InOrder(rest, next) && from <= next
    requires forall i :: 0 <= i < |first| ==> first[i].oldEnd <= next
    ensures InOrder(first + rest, from)
  {
  }

  lemma {:induction false} PointAt(islands: seq<Island>, from: nat, at: nat, i: nat)
    requires InOrder(islands, from) && i < |islands| && islands[i].oldStart <= at < islands[i].oldEnd
    ensures PartitionPoint(islands, at) == i + 1
    decreases |islands|
  {
    var rest := islands[1..];
    assert forall k :: 0 <= k < |rest| ==> rest[k] == islands[k + 1];
    if i > 0 {
      assert islands[0].oldStart <= islands[i].oldStart;
      PointAt(rest, from, at, i - 1);
    } else if rest != [] {
      assert rest[0] == islands[1];
    }
  }

  /** The answer names the one island that holds the position, and the position it has there. */
  lemma MapNamesIsland(splices: seq<Splice>, oldLen: nat, newLen: nat, at: nat, to: nat, i: nat)
    requires Normalized(splices, 0, 0, oldLen, newLen)
    ensures var islands := Islands(splices, 0, 0, oldLen);
      MapOldToNew(islands, at) == Some((to, i)) <==> i < |islands| && Carries(islands[i], at, to)
  {
    var islands := Islands(splices, 0, 0, oldLen);
    IslandsRegular(splices, 0, 0, oldLen, newLen);
    if i < |islands| && Carries(islands[i], at, to) { PointAt(islands, 0, at, i); }
  }

  function First(mapped: Option<(nat, nat)>): Option<nat> {
    if mapped.Some? then Some(mapped.value.0) else None
  }

  /** Reference reading: walk the splices. */
  function Moved(splices: seq<Splice>, old0: nat, new0: nat, oldLen: nat, at: nat): Option<nat>
    requires old0 <= at
  {
    if splices == [] then if at < oldLen then Some(new0 + (at - old0)) else None
    else if at < splices[0].oldStart then Some(new0 + (at - old0))
    else if at < splices[0].oldEnd then None
    else Moved(splices[1..], splices[0].oldEnd, splices[0].newEnd, oldLen, at)
  }

  ghost predicate StartFrom(islands: seq<Island>, lo: nat) {
    forall i :: 0 <= i < |islands| ==> islands[i].oldStart >= lo
  }

  lemma {:induction false} NoneBefore(islands: seq<Island>, at: nat)
    requires StartFrom(islands, at + 1)
    ensures PartitionPoint(islands, at) == 0 && MapOldToNew(islands, at) == None
  {
  }

  /** Looking up behind one more leading island. */
  lemma LookupCons(island: Island, rest: seq<Island>, at: nat)
    requires StartFrom(rest, island.oldEnd) && island.oldStart <= at
    ensures at < island.oldEnd ==>
      First(MapOldToNew([island] + rest, at)) == Some(island.newStart + (at - island.oldStart))
    ensures at >= island.oldEnd ==> First(MapOldToNew([island] + rest, at)) == First(MapOldToNew(rest, at))
  {
    var all := [island] + rest;
    assert all[1..] == rest;
    if at < island.oldEnd {
      forall i | 0 <= i < |rest| ensures rest[i].oldStart >= at + 1 { }
      NoneBefore(rest, at);
    }
  }

  lemma {:induction false} IslandsStart(splices: seq<Splice>, old0: nat, new0: nat, oldLen: nat, newLen: nat)
    requires Normalized(splices, old0, new0, oldLen, newLen)
    ensures StartFrom(Islands(splices, old0, new0, oldLen), old0)
  {
    if splices != [] {
      IslandsStart(splices[1..], splices[0].oldEnd, splices[0].newEnd, oldLen, newLen);
    }
  }

  /** The binary search over islands agrees with walking the splices. */
  lemma {:induction false} MapIsMoved(splices: seq<Splice>, old0: nat, new0: nat, oldLen: nat, newLen: nat, at: nat)
    requires Normalized(splices, old0, new0, oldLen, newLen) && old0 <= at
    ensures First(MapOldToNew(Islands(splices, old0, new0, oldLen), at)) == Moved(splices, old0, new0, oldLen, at)
  {
    if splices == [] {
      if old0 < oldLen {
        LookupCons(IslandBefore(old0, new0, oldLen)[0], [], at);
        assert IslandBefore(old0, new0, oldLen) + [] == IslandBefore(old0, new0, oldLen);
      }
    } else {
      var s := splices[0];
      var rest := Islands(splices[1..], s.oldEnd, s.newEnd, oldLen);
      IslandsStart(splices[1..], s.oldEnd, s.newEnd, oldLen, newLen);
      if s.oldStart > old0 {
        LookupCons(IslandBefore(old0, new0, s.oldStart)[0], rest, at);
      } else {
        assert [] + rest == rest;
      }
      if at >= s.oldEnd {
        MapIsMoved(splices[1..], s.oldEnd, s.newEnd, oldLen, newLen, at);
      } else if at >= s.oldStart {
        NoneBefore(rest, at);
      }
    }
  }

  // ------------------------------------------------------------------ what the map means

  predicate InOld(splices: seq<Splice>, at: nat) {
    splices != [] && (splices[0].oldStart <= at < splices[0].oldEnd || InOld(splices[1..], at))
  }

  predicate InNew(splices: seq<Splice>, at: nat) {
    splices != [] && (splices[0].newStart <= at < splices[0].newEnd || InNew(splices[1..], at))
  }

  lemma {:induction false} LaterOld(splices: seq<Splice>, old0: nat, new0: nat, oldLen: nat, newLen: nat)
    requires Normalized(splices, old0, new0, oldLen, newLen)
    ensures old0 <= oldLen && new0 <= newLen
    ensures forall at: nat :: InOld(splices, at) ==> old0 <= at < oldLen
    ensures forall at: nat :: InNew(splices, at) ==> new0 <= at < newLen
  {
    if splices != [] {
      LaterOld(splices[1..], splices[0].oldEnd, splices[0].newEnd, oldLen, newLen);
    }
  }

  /** Defined exactly outside every replaced range, and then inside the new text and outside
      every new range. */
  lemma {:induction false} MovedDefined(splices: seq<Splice>, old0: nat, new0: nat, oldLen: nat, newLen: nat, at: nat)
    requires Normalized(splices, old0, new0, oldLen, newLen) && old0 <= at
    ensures var m := Moved(splices, old0, new0, oldLen, at);
      && (m.Some? <==> at < oldLen && !InOld(splices, at))
      && (m.Some? ==> new0 <= m.value < newLen && !InNew(splices, m.value))
  {
    LaterOld(splices, old0, new0, oldLen, newLen);
    if splices != [] {
      var s := splices[0];
      LaterOld(splices[1..], s.oldEnd, s.newEnd, oldLen, newLen);
      if at >= s.oldEnd { MovedDefined(splices[1..], s.oldEnd, s.newEnd, oldLen, newLen, at); }
    }
  }

  lemma {:induction false} MovedIncreases(splices: seq<Splice>, old0: nat, new0: nat, oldLen: nat, newLen: nat,
                                          a: nat, b: nat)
    requires Normalized(splices, old0, new0, oldLen, newLen) && old0 <= a < b
    requires Moved(splices, old0, new0, oldLen, a).Some? && Moved(splices, old0, new0, oldLen, b).Some?
    ensures Moved(splices, old0, new0, oldLen, a).value < Moved(splices, old0, new0, oldLen, b).value
  {
    if splices != [] {
      var s := splices[0];
      if a >= s.oldEnd {
        MovedIncreases(splices[1..], s.oldEnd, s.newEnd, oldLen, newLen, a, b);
      } else if b >= s.oldEnd {
        MovedDefined(splices[1..], s.oldEnd, s.newEnd, oldLen, newLen, b);
      }
    }
  }

  /** Every new position outside the new ranges comes from some old position. */
  lemma {:induction false} MovedOnto(splices: seq<Splice>, old0: nat, new0: nat, oldLen: nat, newLen: nat, to: nat)
    returns (at: nat)
    requires Normalized(splices, old0, new0, oldLen, newLen) && new0 <= to < newLen && !InNew(splices, to)
    ensures old0 <= at && Moved(splices, old0, new0, oldLen, at) == Some(to)
  {
    if splices == [] || to < splices[0].newStart {
      at := old0 + (to - new0);
    } else {
      at := MovedOnto(splices[1..], splices[0].oldEnd, splices[0].newEnd, oldLen, newLen, to);
    }
  }

  /** The moved position holds the same unit. */
  lemma {:induction false} MovedUnit(base: Text, repls: seq<Repl>, splices: seq<Splice>, old0: nat, new0: nat,
                                     newLen: nat, at: nat)
    requires Ordered(repls, old0, |base|) && |splices| == |repls| && old0 <= at
    requires forall i :: 0 <= i < |repls| ==> SameRange(splices[i], repls[i])
    requires Normalized(splices, old0, new0, |base|, newLen)
    requires Moved(splices, old0, new0, |base|, at).Some?
    ensures var to := Moved(splices, old0, new0, |base|, at).value;
      && at < |base| && new0 <= to < new0 + |Replaced(base, repls, old0)|
      && Replaced(base, repls, old0)[to - new0] == base[at]
  {
    OrderedBounds(repls, old0, |base|);
    if repls != [] {
      assert SameRange(splices[0], repls[0]);
      var after := Replaced(base, repls[1..], repls[0].end);
      if at >= repls[0].end {
        forall i | 0 <= i < |repls[1..]| ensures SameRange(splices[1..][i], repls[1..][i]) {
          assert SameRange(splices[i + 1], repls[i + 1]);
        }
        MovedUnit(base, repls[1..], splices[1..], repls[0].end, splices[0].newEnd, newLen, at);
        UnitAfter(base, repls[0], old0, after, Moved(splices, old0, new0, |base|, at).value - splices[0].newEnd);
      } else {
        UnitBefore(base, repls[0], old0, after, at);
      }
    }
  }

  predicate SameRange(s: Splice, r: Repl) {
    && s.oldStart == r.start && s.oldEnd == r.end
    && s.newEnd == s.newStart + |r.text|
  }

  lemma UnitBefore(base: Text, r: Repl, from: nat, after: Text, at: nat)
    requires from <= at < r.start <= |base|
    ensures (base[from..r.start] + r.text + after)[at - from] == base[at]
  {
  }

  lemma UnitAfter(base: Text, r: Repl, from: nat, after: Text, k: nat)
    requires from <= r.start <= |base| && k < |after|
    ensures (base[from..r.start] + r.text + after)[r.start - from + |r.text| + k] == after[k]
  {
  }

  /** `map_old_to_new` after an accepted batch, for every old position. */
  lemma MapKeepsUnits(base: Text, splices: seq<Splice>, inserted: seq<Text>, repls: seq<Repl>, at: nat)
    requires Ordered(repls, 0, |base|) && Describes(splices, inserted, repls)
    ensures var text := Replaced(base, repls, 0);
      var m := MapOldToNew(Islands(splices, 0, 0, |base|), at);
      && (m.Some? <==> at < |base| && !InOld(splices, at))
      && (m.Some? ==> m.value.0 < |text| && text[m.value.0] == base[at] && !InNew(splices, m.value.0))
  {
    Regular(base, splices, inserted, repls);
    var newLen := |Replaced(base, repls, 0)|;
    MapIsMoved(splices, 0, 0, |base|, newLen, at);
    MovedDefined(splices, 0, 0, |base|, newLen, at);
    if Moved(splices, 0, 0, |base|, at).Some? {
      forall i | 0 <= i < |repls| ensures SameRange(splices[i], repls[i]) {
        PlacedNext(splices, inserted, repls, i);
      }
      MovedUnit(base, repls, splices, 0, 0, newLen, at);
    }
  }

  lemma Regular(base: Text, splices: seq<Splice>, inserted: seq<Text>, repls: seq<Repl>)
    requires Ordered(repls, 0, |base|) && Describes(splices, inserted, repls)
    ensures Normalized(splices, 0, 0, |base|, |Replaced(base, repls, 0)|)
  {
    DescribedNormalized(base, splices, inserted, repls, 0);
    assert splices[0..] == splices;
  }

  lemma MapIncreases(splices: seq<Splice>, oldLen: nat, newLen: nat, a: nat, b: nat)
    requires Normalized(splices, 0, 0, oldLen, newLen) && a < b
    requires MapOldToNew(Islands(splices, 0, 0, oldLen), a).Some?
    requires MapOldToNew(Islands(splices, 0, 0, oldLen), b).Some?
    ensures MapOldToNew(Islands(splices, 0, 0, oldLen), a).value.0
          < MapOldToNew(Islands(splices, 0, 0, oldLen), b).value.0
  {
    MapIsMoved(splices, 0, 0, oldLen, newLen, a);
    MapIsMoved(splices, 0, 0, oldLen, newLen, b);
    MovedIncreases(splices, 0, 0, oldLen, newLen, a, b);
  }

  /** Some old position maps to `to`. */
  ghost predicate Reached(splices: seq<Splice>, oldLen: nat, to: nat) {
    exists at: nat :: Goes(splices, oldLen, at, to)
  }

  predicate Goes(splices: seq<Splice>, oldLen: nat, at: nat, to: nat) {
    First(MapOldToNew(Islands(splices, 0, 0, oldLen), at)) == Some(to)
  }

  /** Islands and splices partition the new space: a new position lies in an inserted range
      exactly when no old position maps to it. */
  lemma NewPartition(splices: seq<Splice>, oldLen: nat, newLen: nat, to: nat)
    requires Normalized(splices, 0, 0, oldLen, newLen) && to < newLen
    ensures InNew(splices, to) <==> !Reached(splices, oldLen, to)
  {
    if Reached(splices, oldLen, to) {
      var at: nat :| Goes(splices, oldLen, at, to);
      MapIsMoved(splices, 0, 0, oldLen, newLen, at);
      MovedDefined(splices, 0, 0, oldLen, newLen, at);
    }
    if !InNew(splices, to) {
      var at := MovedOnto(splices, 0, 0, oldLen, newLen, to);
      MapIsMoved(splices, 0, 0, oldLen, newLen, at);
      assert Goes(splices, oldLen, at, to);
    }
  }

  // ------------------------------------------------------------------ the map in terms of the replacements

  /** `at` lies in a replaced range. */
  ghost predicate InReplaced(repls: seq<Repl>, at: nat) {
    exists i :: 0 <= i < |repls| && repls[i].start <= at < repls[i].end
  }

  /** By how much the replacements that end at or before `at` shift it. */
  function ShiftBefore(repls: seq<Repl>, at: nat): int {
    if repls == [] then 0
    else (if repls[0].end <= at then Length(repls[0]) else 0) + ShiftBefore(repls[1..], at)
  }

  /** Exactly the units outside the replaced ranges are carried over: each to its shifted position,
      where the new text has it. */
  ghost predicate CarriesOver(islands: seq<Island>, repls: seq<Repl>, base: Text, now: Text) {
    forall at: nat ::
      var m := MapOldToNew(islands, at);
      && (m.Some? <==> at < |base| && !InReplaced(repls, at))
      && (m.Some? ==> CarriedTo(repls, base, now, at, m.value.0))
  }

  predicate CarriedTo(repls: seq<Repl>, base: Text, now: Text, at: nat, to: nat) {
    to == at + ShiftBefore(repls, at) && at < |base| && to < |now| && now[to] == base[at]
  }

  lemma {:induction false} NoShiftBefore(repls: seq<Repl>, from: nat, len: nat, at: nat)
    requires Ordered(repls, from, len) && at < from
    ensures ShiftBefore(repls, at) == 0
    decreases |repls|
  {
    if repls != [] {
      OrderedBounds(repls, from, len);
      NoShiftBefore(repls[1..], repls[0].end, len, at);
    }
  }

  ghost predicate SameRanges(splices: seq<Splice>, repls: seq<Repl>) {
    |splices| == |repls| && forall i :: 0 <= i < |repls| ==> SameRange(splices[i], repls[i])
  }

  lemma RangesRest(splices: seq<Splice>, repls: seq<Repl>)
    requires SameRanges(splices, repls) && repls != []
    ensures SameRange(splices[0], repls[0]) && SameRanges(splices[1..], repls[1..])
  {
    forall i | 0 <= i < |repls[1..]| ensures SameRange(splices[1..][i], repls[1..][i]) {
      assert SameRange(splices[i + 1], repls[i + 1]);
    }
  }

  lemma {:induction false} MovedByShift(repls: seq<Repl>, splices: seq<Splice>, old0: nat, new0: nat, oldLen: nat,
                                        newLen: nat, at: nat)
    requires Ordered(repls, old0, oldLen) && SameRanges(splices, repls) && old0 <= at
    requires Normalized(splices, old0, new0, oldLen, newLen) && Moved(splices, old0, new0, oldLen, at).Some?
    ensures Moved(splices, old0, new0, oldLen, at).value == at + (new0 - old0) + ShiftBefore(repls, at)
    decreases |repls|
  {
    if repls != [] {
      var r, s := repls[0], splices[0];
      RangesRest(splices, repls);
      OrderedBounds(repls, old0, oldLen);
      if at >= r.end {
        MovedByShift(repls[1..], splices[1..], s.oldEnd, s.newEnd, oldLen, newLen, at);
      } else {
        NoShiftBefore(repls[1..], r.end, oldLen, at);
      }
    }
  }

  lemma {:induction false} InOldReplaced(splices: seq<Splice>, repls: seq<Repl>, at: nat)
    requires SameRanges(splices, repls)
    ensures InOld(splices, at) <==> InReplaced(repls, at)
    decreases |repls|
  {
    if repls != [] {
      RangesRest(splices, repls);
      InOldReplaced(splices[1..], repls[1..], at);
      if InReplaced(repls[1..], at) {
        var i :| 0 <= i < |repls[1..]| && repls[1..][i].start <= at < repls[1..][i].end;
        assert repls[i + 1] == repls[1..][i];
      }
      if InReplaced(repls, at) {
        var i :| 0 <= i < |repls| && repls[i].start <= at < repls[i].end;
        assert i > 0 ==> repls[1..][i - 1] == repls[i];
      }
    }
  }

  /** The map of an accepted batch carries over exactly what its replacements keep. */
  lemma MapCarriesOver(base: Text, splices: seq<Splice>, inserted: seq<Text>, repls: seq<Repl>)
    requires Ordered(repls, 0, |base|) && Describes(splices, inserted, repls)
    ensures CarriesOver(Islands(splices, 0, 0, |base|), repls, base, Replaced(base, repls, 0))
  {
    var newLen := |Replaced(base, repls, 0)|;
    Regular(base, splices, inserted, repls);
    assert SameRanges(splices, repls) by {
      forall i | 0 <= i < |repls| ensures SameRange(splices[i], repls[i]) {
        PlacedNext(splices, inserted, repls, i);
      }
    }
    forall at: nat
      ensures var m := MapOldToNew(Islands(splices, 0, 0, |base|), at);
        && (m.Some? <==> at < |base| && !InReplaced(repls, at))
        && (m.Some? ==> CarriedTo(repls, base, Replaced(base, repls, 0), at, m.value.0))
    {
      MapKeepsUnits(base, splices, inserted, repls, at);
      InOldReplaced(splices, repls, at);
      MapIsMoved(splices, 0, 0, |base|, newLen, at);
      if Moved(splices, 0, 0, |base|, at).Some? { MovedByShift(repls, splices, 0, 0, |base|, newLen, at); }
    }
  }

  /** The texts of replacements. */
  function Pieces(repls: seq<Repl>): (r: seq<Text>)
    ensures |r| == |repls| && forall i :: 0 <= i < |r| ==> r[i] == repls[i].text
  {
    seq(|repls|, i requires 0 <= i < |repls| => repls[i].text)
  }

  lemma DescribedPieces(splices: seq<Splice>, inserted: seq<Text>, repls: seq<Repl>)
    requires Describes(splices, inserted, repls)
    ensures inserted == Pieces(repls)
  {
    forall i | 0 <= i < |repls| ensures inserted[i] == repls[i].text {
      PlacedNext(splices, inserted, repls, i);
    }
  }
}
