/**
  The planning pass of `ContainerSpecBuilder::build` (`ioc_core/src/container/spec.rs`) after
  every dependency has been resolved to a bean id: the leveled topological scan and the stable
  sort by level. The functions here take the very steps of the loop (the same `scan_ids` swaps,
  the same mid-pass updates of `ready_ids`), so that `ContainerSpecs.ContainerSpecBuilder.Build`
  can be proved equal to them and the lemmas below can state what the pass achieves.

  As written, a bean readied earlier in a pass counts as ready for the beans examined after it in
  the same pass, so a dependent can receive the same level as its dependency (see
  `TieExample`): what holds is `level(dependency) <= level(dependent)`.
*/
module SpecLeveling {
  import opened Wrappers
  import opened Layouts
  import opened BeanTypes

  /** `BeanSpec`: a bean id, the ids its dependency queries resolved to, and its level. */
  datatype BeanSpec = BeanSpec(id: nat, dependencies: seq<nat>, level: nat)

  /** The loop's state: `scan_ids`, `ready_ids`, `bean_specs` and `tail`. */
  datatype ScanState = ScanState(scan: seq<nat>, ready: set<nat>, specs: seq<BeanSpec>, tail: nat)

  ghost predicate WellFormed(st: ScanState)
  {
    && |st.scan| == |st.specs|
    && st.tail <= |st.scan|
    && forall i :: 0 <= i < |st.scan| ==> st.scan[i] < |st.specs|
  }

  /** Every resolved dependency names a registered bean. */
  ghost predicate DepsInRange(deps: seq<seq<nat>>)
  {
    forall x, d :: 0 <= x < |deps| && d in deps[x] ==> d < |deps|
  }

  /** The inner `for id in info.dependencies` loop with its `break`. */
  predicate AllReady(deps: seq<nat>, ready: set<nat>)
  {
    forall d :: d in deps ==> d in ready
  }

  function Swap(s: seq<nat>, i: nat, j: nat): (r: seq<nat>)
    requires i < |s| && j < |s|
    ensures |r| == |s| && r[i] == s[j] && r[j] == s[i]
    ensures forall k :: 0 <= k < |s| && k != i && k != j ==> r[k] == s[k]
  {
    s[i := s[j]][j := s[i]]
  }

  /** The `if ready` branch: record the level, insert the id, shrink `tail`, swap the bean out. */
  function ReadyAt(st: ScanState, head: nat, level: nat): (r: ScanState)
    requires WellFormed(st) && head < st.tail
    ensures WellFormed(r) && r.tail == st.tail - 1
  {
    var x := st.scan[head];
    var specs := st.specs[x := st.specs[x].(level := level)];
    ScanState(Swap(st.scan, head, st.tail - 1), st.ready + {st.specs[x].id}, specs, st.tail - 1)
  }

  /**
    One pass (`while head < tail`), returning the new state and `some_ready`.
    A pass never grows `tail`, and reports progress only when `tail` shrank.
  */
  function Pass(st: ScanState, head: nat, level: nat, someReady: bool): (r: (ScanState, bool))
    requires WellFormed(st) && head <= st.tail
    ensures WellFormed(r.0) && r.0.tail <= st.tail
    ensures r.1 ==> someReady || r.0.tail < st.tail
    ensures someReady ==> r.1
    decreases st.tail - head
  {
    if head >= st.tail then (st, someReady)
    else if AllReady(st.specs[st.scan[head]].dependencies, st.ready) then
      Pass(ReadyAt(st, head, level), head, level, true)
    else
      Pass(st, head + 1, level, someReady)
  }

  /** The outer `while tail > 0`: a pass that readies nothing is a `LoopDependency`. */
  function Leveling(st: ScanState, level: nat): Result<seq<BeanSpec>, ContainerError>
    requires WellFormed(st)
    decreases st.tail
  {
    if st.tail == 0 then Success(st.specs)
    else
      var (next, someReady) := Pass(st, 0, level, false);
      if !someReady then Failure(LoopDependency) else Leveling(next, level + 1)
  }

  /** The state `build` sets up: `scan_ids = [0, n)`, nothing ready, every level `usize::MAX`. */
  function InitialState(deps: seq<seq<nat>>): (st: ScanState)
    ensures WellFormed(st)
  {
    ScanState(
      seq(|deps|, i => i),
      {},
      seq(|deps|, i requires 0 <= i < |deps| => BeanSpec(i, deps[i], USIZE_MAX)),
      |deps|)
  }

  /** The leveled bean specs of the resolved dependency lists `deps`. */
  function Levels(deps: seq<seq<nat>>): Result<seq<BeanSpec>, ContainerError>
  {
    Leveling(InitialState(deps), 0)
  }

  // ---------------------------------------------------------------------------------------
  // What the scan keeps true

  ghost predicate Inv(deps: seq<seq<nat>>, st: ScanState, level: nat)
  {
    var n := |deps|;
    && WellFormed(st) && |st.specs| == n
    && DepsInRange(deps)
    && (forall x :: 0 <= x < n ==> st.specs[x].id == x && st.specs[x].dependencies == deps[x])
    && (forall i, j :: 0 <= i < j < n ==> st.scan[i] != st.scan[j])
    && (forall x :: 0 <= x < n ==> x in st.scan)
    && (forall i :: 0 <= i < n ==> (st.scan[i] in st.ready <==> st.tail <= i))
    && (forall x :: x in st.ready ==> x < n && st.specs[x].level <= level && st.specs[x].level < n)
    && (forall x, d :: x in st.ready && d in deps[x] ==> d in st.ready && st.specs[d].level <= st.specs[x].level)
  }

  lemma InitialInv(deps: seq<seq<nat>>)
    requires DepsInRange(deps)
    ensures Inv(deps, InitialState(deps), 0)
  {
    var st := InitialState(deps);
    forall x | 0 <= x < |deps| ensures x in st.scan {
      assert st.scan[x] == x;
    }
  }

  lemma InvLevelUp(deps: seq<seq<nat>>, st: ScanState, level: nat)
    requires Inv(deps, st, level)
    ensures Inv(deps, st, level + 1)
  {
  }

  lemma SwapKeepsMembers(s: seq<nat>, i: nat, j: nat, x: nat)
    requires i < |s| && j < |s| && x in s
    ensures x in Swap(s, i, j)
  {
    var k :| 0 <= k < |s| && s[k] == x;
    var r := Swap(s, i, j);
    if k == i { assert r[j] == x; } else if k == j { assert r[i] == x; } else { assert r[k] == x; }
  }

  lemma ReadyAtKeepsInv(deps: seq<seq<nat>>, st: ScanState, head: nat, level: nat)
    requires Inv(deps, st, level) && level < |deps| && head < st.tail
    requires AllReady(st.specs[st.scan[head]].dependencies, st.ready)
    ensures Inv(deps, ReadyAt(st, head, level), level)
  {
    ReadyAtKeepsScan(deps, st, head, level);
    ReadyAtKeepsDeps(deps, st, head, level);
  }

  /** Marking the bean at `head` ready keeps the scan order a permutation split at `tail`. */
  lemma ReadyAtKeepsScan(deps: seq<seq<nat>>, st: ScanState, head: nat, level: nat)
    requires Inv(deps, st, level) && head < st.tail
    ensures var r := ReadyAt(st, head, level); var n := |deps|;
      && (forall i, j :: 0 <= i < j < n ==> r.scan[i] != r.scan[j])
      && (forall y :: 0 <= y < n ==> y in r.scan)
      && (forall i :: 0 <= i < n ==> (r.scan[i] in r.ready <==> r.tail <= i))
  {
    var n := |deps|;
    var x := st.scan[head];
    var r := ReadyAt(st, head, level);
    assert x !in st.ready;
    assert r.ready == st.ready + {x};
    forall i, j | 0 <= i < j < n ensures r.scan[i] != r.scan[j] {
      var i0 := if i == head then st.tail - 1 else if i == st.tail - 1 then head else i;
      var j0 := if j == head then st.tail - 1 else if j == st.tail - 1 then head else j;
      assert r.scan[i] == st.scan[i0] && r.scan[j] == st.scan[j0];
    }
    forall y | 0 <= y < n ensures y in r.scan {
      SwapKeepsMembers(st.scan, head, st.tail - 1, y);
    }
    forall i | 0 <= i < n ensures (r.scan[i] in r.ready <==> r.tail <= i) {
      if i == st.tail - 1 {
        assert r.scan[i] == x;
      } else if i == head {
        assert r.scan[i] == st.scan[st.tail - 1];
        assert st.scan[st.tail - 1] != x;
      } else {
        assert r.scan[i] == st.scan[i];
        assert st.scan[i] != x;
      }
    }
  }

  /** Marking a bean ready whose dependencies are all ready keeps levels consistent with dependencies. */
  lemma ReadyAtKeepsDeps(deps: seq<seq<nat>>, st: ScanState, head: nat, level: nat)
    requires Inv(deps, st, level) && level < |deps| && head < st.tail
    requires AllReady(st.specs[st.scan[head]].dependencies, st.ready)
    ensures var r := ReadyAt(st, head, level); var n := |deps|;
      && (forall y :: 0 <= y < n ==> r.specs[y].id == y && r.specs[y].dependencies == deps[y])
      && (forall y :: y in r.ready ==> y < n && r.specs[y].level <= level && r.specs[y].level < n)
      && (forall y, d :: y in r.ready && d in deps[y] ==> d in r.ready && r.specs[d].level <= r.specs[y].level)
  {
    var x := st.scan[head];
    var r := ReadyAt(st, head, level);
    assert x !in st.ready;
    assert r.ready == st.ready + {x};
    forall y, d | y in r.ready && d in deps[y]
      ensures d in r.ready && r.specs[d].level <= r.specs[y].level
    {
      if y == x {
        assert d in st.specs[x].dependencies;
      } else {
        assert y in st.ready;
      }
    }
  }

  lemma {:induction false} PassKeepsInv(deps: seq<seq<nat>>, st: ScanState, head: nat, level: nat, someReady: bool)
    requires Inv(deps, st, level) && level < |deps| && head <= st.tail
    ensures Inv(deps, Pass(st, head, level, someReady).0, level)
    decreases st.tail - head
  {
    if head < st.tail {
      if AllReady(st.specs[st.scan[head]].dependencies, st.ready) {
        ReadyAtKeepsInv(deps, st, head, level);
        PassKeepsInv(deps, ReadyAt(st, head, level), head, level, true);
      } else {
        PassKeepsInv(deps, st, head + 1, level, someReady);
      }
    }
  }

  /** A pass that readies nothing leaves the state as it was, and found every unready bean blocked. */
  lemma {:induction false} PassWithoutProgress(st: ScanState, head: nat, level: nat, someReady: bool)
    requires WellFormed(st) && head <= st.tail
    requires !Pass(st, head, level, someReady).1
    ensures !someReady && Pass(st, head, level, someReady).0 == st
    ensures forall i :: head <= i < st.tail ==> !AllReady(st.specs[st.scan[i]].dependencies, st.ready)
    decreases st.tail - head
  {
    if head < st.tail {
      if !AllReady(st.specs[st.scan[head]].dependencies, st.ready) {
        PassWithoutProgress(st, head + 1, level, someReady);
      } else {
        assert false;
      }
    }
  }

  // ---------------------------------------------------------------------------------------
  // What a successful scan produces

  /**
    Leveled specs: one per bean in id order, each keeping its dependency list, each with a level
    below the number of beans, and no bean below any of its dependencies.
  */
  ghost predicate LeveledSpecs(deps: seq<seq<nat>>, specs: seq<BeanSpec>)
  {
    && |specs| == |deps|
    && (forall x :: 0 <= x < |deps| ==> specs[x].id == x && specs[x].dependencies == deps[x])
    && (forall x :: 0 <= x < |deps| ==> specs[x].level < |deps|)
    && (forall x, d :: 0 <= x < |deps| && d in deps[x] ==> d < |deps| && specs[d].level <= specs[x].level)
  }

  /** Once `tail` reaches 0, every bean is in `ready_ids`. */
  lemma EverythingReadyAtEnd(deps: seq<seq<nat>>, st: ScanState, level: nat)
    requires Inv(deps, st, level) && st.tail == 0
    ensures forall x :: 0 <= x < |deps| ==> x in st.ready
  {
    forall x | 0 <= x < |deps| ensures x in st.ready {
      assert x in st.scan;
      var i :| 0 <= i < |st.scan| && st.scan[i] == x;
    }
  }

  lemma {:induction false} LevelingSound(deps: seq<seq<nat>>, st: ScanState, level: nat)
    requires Inv(deps, st, level) && level + st.tail <= |deps|
    requires Leveling(st, level).Success?
    ensures LeveledSpecs(deps, Leveling(st, level).value)
    decreases st.tail
  {
    if st.tail == 0 {
      EverythingReadyAtEnd(deps, st, level);
    } else {
      PassKeepsInv(deps, st, 0, level, false);
      var next := Pass(st, 0, level, false).0;
      InvLevelUp(deps, next, level);
      LevelingSound(deps, next, level + 1);
    }
  }

  /**
    A successful scan gives every bean a level below the number of beans and gives no bean a
    level below one of its dependencies' levels.
  */
  lemma LevelsSound(deps: seq<seq<nat>>)
    requires DepsInRange(deps) && Levels(deps).Success?
    ensures LeveledSpecs(deps, Levels(deps).value)
  {
    InitialInv(deps);
    LevelingSound(deps, InitialState(deps), 0);
  }

  // ---------------------------------------------------------------------------------------
  // When the scan reports a loop

  /** A non-empty set of beans each of which depends on a member of the set: a dependency cycle. */
  ghost predicate Closed(deps: seq<seq<nat>>, s: set<nat>)
  {
    && (forall x :: x in s ==> x < |deps|)
    && forall x {:trigger deps[x]} :: x in s && x < |deps| ==> exists d :: d in deps[x] && d in s
  }

  ghost predicate HasCycle(deps: seq<seq<nat>>)
  {
    exists s: set<nat> :: s != {} && Closed(deps, s)
  }

  /** Bean `x`'s spec is at index `x` and carries `x`'s resolved dependencies. */
  ghost predicate SpecsMatch(deps: seq<seq<nat>>, st: ScanState)
  {
    && WellFormed(st) && |st.specs| == |deps|
    && forall x :: 0 <= x < |deps| ==> st.specs[x].id == x && st.specs[x].dependencies == deps[x]
  }

  /** No bean of a cycle is ever readied. */
  lemma ReadyAtAvoidsClosed(deps: seq<seq<nat>>, st: ScanState, head: nat, level: nat, s: set<nat>)
    requires SpecsMatch(deps, st) && head < st.tail
    requires AllReady(st.specs[st.scan[head]].dependencies, st.ready)
    requires Closed(deps, s) && s !! st.ready
    ensures SpecsMatch(deps, ReadyAt(st, head, level)) && s !! ReadyAt(st, head, level).ready
  {
    var x := st.scan[head];
    assert x !in s;
    assert ReadyAt(st, head, level).ready == st.ready + {x};
  }

  lemma {:induction false} PassAvoidsClosed(deps: seq<seq<nat>>, st: ScanState, head: nat, level: nat, someReady: bool, s: set<nat>)
    requires SpecsMatch(deps, st) && head <= st.tail
    requires Closed(deps, s) && s !! st.ready
    ensures s !! Pass(st, head, level, someReady).0.ready
    decreases st.tail - head
  {
    if head < st.tail {
      if AllReady(st.specs[st.scan[head]].dependencies, st.ready) {
        ReadyAtAvoidsClosed(deps, st, head, level, s);
        PassAvoidsClosed(deps, ReadyAt(st, head, level), head, level, true, s);
      } else {
        PassAvoidsClosed(deps, st, head + 1, level, someReady, s);
      }
    }
  }

  lemma {:induction false} ClosedSetBlocks(deps: seq<seq<nat>>, st: ScanState, level: nat, s: set<nat>)
    requires Inv(deps, st, level) && level + st.tail <= |deps|
    requires s != {} && Closed(deps, s) && s !! st.ready
    ensures Leveling(st, level) == Failure(LoopDependency)
    decreases st.tail
  {
    var x :| x in s;
    if st.tail == 0 {
      EverythingReadyAtEnd(deps, st, level);
      assert false;
    } else {
      var next := Pass(st, 0, level, false).0;
      if Pass(st, 0, level, false).1 {
        assert Inv(deps, next, level + 1) && s !! next.ready by {
          PassKeepsInv(deps, st, 0, level, false);
          PassAvoidsClosed(deps, st, 0, level, false, s);
          InvLevelUp(deps, next, level);
        }
        ClosedSetBlocks(deps, next, level + 1, s);
      }
    }
  }

  /** When no unready bean has all its dependencies ready, the unready beans form a cycle. */
  lemma StuckGivesCycle(deps: seq<seq<nat>>, st: ScanState, level: nat)
    requires Inv(deps, st, level) && st.tail > 0
    requires forall i :: 0 <= i < st.tail ==> !AllReady(st.specs[st.scan[i]].dependencies, st.ready)
    ensures HasCycle(deps)
  {
    var u := set i | 0 <= i < st.tail :: st.scan[i];
    assert st.scan[0] in u;
    forall x | x in u ensures x < |deps| && exists d :: d in deps[x] && d in u {
      var i :| 0 <= i < st.tail && st.scan[i] == x;
      assert !AllReady(st.specs[x].dependencies, st.ready);
      var d :| d in deps[x] && d !in st.ready;
      assert d in st.scan;
      var k :| 0 <= k < |st.scan| && st.scan[k] == d;
      assert k < st.tail;
    }
    assert Closed(deps, u);
  }

  lemma {:induction false} FailureHasCycle(deps: seq<seq<nat>>, st: ScanState, level: nat)
    requires Inv(deps, st, level) && level + st.tail <= |deps|
    requires Leveling(st, level).Failure?
    ensures HasCycle(deps)
    decreases st.tail
  {
    var next := Pass(st, 0, level, false).0;
    if !Pass(st, 0, level, false).1 {
      PassWithoutProgress(st, 0, level, false);
      StuckGivesCycle(deps, st, level);
    } else {
      PassKeepsInv(deps, st, 0, level, false);
      InvLevelUp(deps, next, level);
      FailureHasCycle(deps, next, level + 1);
    }
  }

  /**
    The scan fails, and then always with `LoopDependency`, exactly when some non-empty set of
    beans has every member depending on another member, that is when the dependency graph has
    a cycle.
  */
  lemma LevelsFailIffCycle(deps: seq<seq<nat>>)
    requires DepsInRange(deps)
    ensures Levels(deps).Failure? <==> HasCycle(deps)
    ensures Levels(deps).Failure? ==> Levels(deps).error == LoopDependency
  {
    InitialInv(deps);
    if HasCycle(deps) {
      var s :| s != {} && Closed(deps, s);
      ClosedSetBlocks(deps, InitialState(deps), 0, s);
    }
    if Levels(deps).Failure? {
      FailureHasCycle(deps, InitialState(deps), 0);
    }
  }

  // ---------------------------------------------------------------------------------------
  // `bean_specs.sort_by(|l, r| l.level.cmp(&r.level))`: a stable sort by level

  /** Insert `x` after every element whose level is not greater than its own. */
  function InsertByLevel(sorted: seq<BeanSpec>, x: BeanSpec): (r: seq<BeanSpec>)
    ensures multiset(r) == multiset(sorted) + multiset{x}
    decreases |sorted|
  {
    if sorted == [] || sorted[|sorted| - 1].level <= x.level then sorted + [x]
    else
      var init := sorted[..|sorted| - 1];
      assert sorted == init + [sorted[|sorted| - 1]];
      InsertByLevel(init, x) + [sorted[|sorted| - 1]]
  }

  /** The library's stable sort by level, as a stable insertion sort. */
  function SortByLevel(s: seq<BeanSpec>): (r: seq<BeanSpec>)
    ensures multiset(r) == multiset(s)
    decreases |s|
  {
    if s == [] then []
    else
      var init := s[..|s| - 1];
      assert s == init + [s[|s| - 1]];
      InsertByLevel(SortByLevel(init), s[|s| - 1])
  }

  ghost predicate SortedByLevel(s: seq<BeanSpec>)
  {
    forall i, j :: 0 <= i < j < |s| ==> s[i].level <= s[j].level
  }

  /** Among equal levels, ids increase: ties keep the input's id order. */
  ghost predicate TiesInIdOrder(s: seq<BeanSpec>)
  {
    forall i, j :: 0 <= i < j < |s| && s[i].level == s[j].level ==> s[i].id < s[j].id
  }

  ghost predicate IdsIncreasing(s: seq<BeanSpec>)
  {
    forall i, j :: 0 <= i < j < |s| ==> s[i].id < s[j].id
  }

  lemma MultisetMember(a: seq<BeanSpec>, b: seq<BeanSpec>, y: BeanSpec)
    requires multiset(a) == multiset(b) && y in a
    ensures y in b
  {
    assert y in multiset(a);
  }

  /** Appending a bean above (or level with and after) every bean keeps a list in level order with ties in id order. */
  lemma AppendKeepsOrder(s: seq<BeanSpec>, x: BeanSpec)
    requires SortedByLevel(s) && TiesInIdOrder(s)
    requires forall y :: y in s ==> y.level <= x.level && (y.level == x.level ==> y.id < x.id)
    ensures SortedByLevel(s + [x]) && TiesInIdOrder(s + [x])
  {
    var r := s + [x];
    forall i, j | 0 <= i < j < |r| ensures r[i].level <= r[j].level {
      if j == |s| { assert r[i] in s; }
    }
    forall i, j | 0 <= i < j < |r| && r[i].level == r[j].level ensures r[i].id < r[j].id {
      if j == |s| { assert r[i] in s; }
    }
  }

  /** Every bean of a list in level order is at or below the level of its last bean. */
  lemma BelowLast(sorted: seq<BeanSpec>, y: BeanSpec)
    requires sorted != [] && SortedByLevel(sorted) && TiesInIdOrder(sorted) && y in sorted[..|sorted| - 1]
    ensures y.level <= sorted[|sorted| - 1].level
    ensures y.level == sorted[|sorted| - 1].level ==> y.id < sorted[|sorted| - 1].id
  {
    var k :| 0 <= k < |sorted| - 1 && sorted[..|sorted| - 1][k] == y;
    assert sorted[k] == y;
  }

  lemma {:induction false} InsertKeepsOrder(sorted: seq<BeanSpec>, x: BeanSpec)
    requires SortedByLevel(sorted) && TiesInIdOrder(sorted)
    requires forall y :: y in sorted ==> y.id < x.id
    ensures SortedByLevel(InsertByLevel(sorted, x)) && TiesInIdOrder(InsertByLevel(sorted, x))
    decreases |sorted|
  {
    if sorted == [] || sorted[|sorted| - 1].level <= x.level {
      forall y | y in sorted ensures y.level <= x.level {
        var k :| 0 <= k < |sorted| && sorted[k] == y;
      }
      AppendKeepsOrder(sorted, x);
    } else {
      var init := sorted[..|sorted| - 1];
      var last := sorted[|sorted| - 1];
      forall y | y in init ensures y.id < x.id { assert y in sorted; }
      InsertKeepsOrder(init, x);
      var ins := InsertByLevel(init, x);
      forall y | y in ins ensures y.level <= last.level && (y.level == last.level ==> y.id < last.id) {
        MultisetMember(ins, init + [x], y);
        if y != x {
          BelowLast(sorted, y);
        }
      }
      AppendKeepsOrder(ins, last);
    }
  }

  /**
    The sort is stable by level: the result is a permutation of the input, its levels never
    decrease, and beans of equal level keep the input's order, which for an input in id order is
    increasing id order.
  */
  lemma {:induction false} SortByLevelStable(s: seq<BeanSpec>)
    requires IdsIncreasing(s)
    ensures multiset(SortByLevel(s)) == multiset(s)
    ensures SortedByLevel(SortByLevel(s)) && TiesInIdOrder(SortByLevel(s))
    decreases |s|
  {
    if s != [] {
      var init := s[..|s| - 1];
      var last := s[|s| - 1];
      SortByLevelStable(init);
      forall y | y in SortByLevel(init) ensures y.id < last.id {
        MultisetMember(SortByLevel(init), init, y);
        var k :| 0 <= k < |init| && init[k] == y;
      }
      InsertKeepsOrder(SortByLevel(init), last);
    }
  }

  // ---------------------------------------------------------------------------------------
  // The tie the mid-pass update of `ready_ids` allows

  /**
    Beans registered as 0 = B, 1 = C (depending on A) and 2 = A: the single pass readies B, swaps
    A to the front, readies A, and then finds C ready too, so all three get level 0; the stable
    sort then keeps id order and puts C before its dependency A.
  */
  lemma TieExample()
    ensures Levels([[], [2], []]) == Success([BeanSpec(0, [], 0), BeanSpec(1, [2], 0), BeanSpec(2, [], 0)])
    ensures SortByLevel(Levels([[], [2], []]).value) == [BeanSpec(0, [], 0), BeanSpec(1, [2], 0), BeanSpec(2, [], 0)]
  {
    TieLevels();
    TieSorted();
  }

  /** The sort leaves a list already in level order as it is. */
  lemma {:induction false} SortKeepsSorted(s: seq<BeanSpec>)
    requires SortedByLevel(s)
    ensures SortByLevel(s) == s
    decreases |s|
  {
    if s != [] {
      var init, last := s[..|s| - 1], s[|s| - 1];
      assert SortedByLevel(init) by {
        forall i, j | 0 <= i < j < |init| ensures init[i].level <= init[j].level {
          assert init[i] == s[i] && init[j] == s[j];
        }
      }
      SortKeepsSorted(init);
      assert init == [] || init[|init| - 1].level <= last.level;
      assert InsertByLevel(init, last) == init + [last];
      assert s == init + [last];
    }
  }

  /** All three beans of the tie example have level 0, so the stable sort keeps them in id order. */
  lemma TieSorted()
    ensures SortByLevel([BeanSpec(0, [], 0), BeanSpec(1, [2], 0), BeanSpec(2, [], 0)])
      == [BeanSpec(0, [], 0), BeanSpec(1, [2], 0), BeanSpec(2, [], 0)]
  {
    SortKeepsSorted([BeanSpec(0, [], 0), BeanSpec(1, [2], 0), BeanSpec(2, [], 0)]);
  }

  /** The single pass of the tie example gives every bean level 0. */
  lemma TieLevels()
    ensures Levels([[], [2], []]) == Success([BeanSpec(0, [], 0), BeanSpec(1, [2], 0), BeanSpec(2, [], 0)])
  {
    var deps: seq<seq<nat>> := [[], [2], []];
    var st0 := InitialState(deps);
    assert st0.scan == [0, 1, 2];
    assert st0.specs == [BeanSpec(0, [], USIZE_MAX), BeanSpec(1, [2], USIZE_MAX), BeanSpec(2, [], USIZE_MAX)];
    var st1 := ReadyAt(st0, 0, 0);
    assert st1 == ScanState([2, 1, 0], {0}, [BeanSpec(0, [], 0), BeanSpec(1, [2], USIZE_MAX), BeanSpec(2, [], USIZE_MAX)], 2);
    var st2 := ReadyAt(st1, 0, 0);
    assert st2 == ScanState([1, 2, 0], {0, 2}, [BeanSpec(0, [], 0), BeanSpec(1, [2], USIZE_MAX), BeanSpec(2, [], 0)], 1);
    assert AllReady([2], {0, 2});
    var st3 := ReadyAt(st2, 0, 0);
    assert st3 == ScanState([1, 2, 0], {0, 2, 1}, [BeanSpec(0, [], 0), BeanSpec(1, [2], 0), BeanSpec(2, [], 0)], 0);
    assert Pass(st2, 0, 0, true) == (st3, true);
    assert Pass(st1, 0, 0, true) == (st3, true);
    assert Pass(st0, 0, 0, false) == (st3, true);
  }
}
