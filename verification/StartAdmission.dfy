/** Admission of a trajectory goal: its first point against the published
    positions, joint by joint, whatever order the goal names the joints in. */
module StartAdmission {
  import opened Values
  import opened SeqLock

  /** The parameters of the check. */
  datatype RawCheck = Check(joints: seq<string>, tolerances: seq<real>, maxAge: real)
  type Check = c: RawCheck |
    |c.tolerances| == |c.joints| && (forall i | 0 <= i < |c.tolerances| :: c.tolerances[i] >= 0.0) && c.maxAge >= 0.0
    witness Check([], [], 500.0)

  /** The joint names of a goal and the positions of its first point. */
  datatype RawGoal = Goal(names: seq<string>, first: seq<Number>)
  type Goal = g: RawGoal | |g.first| == |g.names| witness Goal([], [])

  predicate Near(actual: Number, first: Number, tolerance: real) {
    actual.Finite? && first.Finite? && Distance(first.value, actual.value) <= tolerance
  }

  predicate FreshEnough(check: Check, age: Number) {
    age.Finite? && age.value <= check.maxAge
  }

  /** The index of the first occurrence, or -1. */
  function Find(names: seq<string>, name: string): (r: int)
    ensures -1 <= r < |names|
    ensures r < 0 <==> name !in names
    ensures r >= 0 ==> names[r] == name && name !in names[..r]
  {
    if names == [] then -1
    else if names[0] == name then 0
    else
      var r := Find(names[1..], name);
      if r < 0 then -1 else r + 1
  }

  predicate JointAgrees(check: Check, positions: seq<Number>, goal: Goal, joint: nat)
    requires joint < |check.joints| == |positions|
  {
    var index := Find(goal.names, check.joints[joint]);
    index >= 0 && Near(positions[joint], goal.first[index], check.tolerances[joint])
  }

  predicate Admissible(check: Check, snapshot: Snapshot, goal: Goal)
    requires |snapshot.positions| == |check.joints|
  {
    FreshEnough(check, snapshot.age) &&
    forall j | 0 <= j < |check.joints| :: JointAgrees(check, snapshot.positions, goal, j)
  }

  /** What admission means, number by number: the published positions are fresh, and
      every configured joint is named by the goal with a first position that lies
      within that joint's tolerance of its published one. */
  lemma AdmissibleMeans(check: Check, snapshot: Snapshot, goal: Goal)
    requires |snapshot.positions| == |check.joints|
    ensures Admissible(check, snapshot, goal) <==>
            && snapshot.age.Finite? && snapshot.age.value <= check.maxAge
            && forall j | 0 <= j < |check.joints| :: Starts(check, snapshot.positions[j], goal, j)
  {
    forall j | 0 <= j < |check.joints|
      ensures JointAgrees(check, snapshot.positions, goal, j) <==> Starts(check, snapshot.positions[j], goal, j)
    {
      var name, index := check.joints[j], Find(goal.names, check.joints[j]);
      if i: nat :| i < |goal.names| && goal.names[i] == name && name !in goal.names[..i] {
        FindIsFirst(goal.names, name, i);
      }
      if index >= 0 {
        assert goal.names[index] == name && name !in goal.names[..index];
      }
      hide Find;
    }
  }

  predicate Starts(check: Check, actual: Number, goal: Goal, joint: nat)
    requires joint < |check.joints|
  {
    exists i | 0 <= i < |goal.names| ::
      && goal.names[i] == check.joints[joint] && check.joints[joint] !in goal.names[..i]
      && actual.Finite? && goal.first[i].Finite?
      && -check.tolerances[joint] <= goal.first[i].value - actual.value <= check.tolerances[joint]
  }

  /** An admitted goal is admissible for one publication, the newest at both ends
      of the read; a goal is refused for want of a snapshot only after every
      attempt met the writer, and otherwise only if what was read does not admit it. */
  method ValidateTrajectoryStart(check: Check, goal: Goal, hasFeedbackAge: bool, run: nat -> Shared, when: nat -> nat)
    returns (admitted: bool, seen: Snapshot, ghost first: nat, ghost failed: seq<(nat, nat)>)
    requires IsHistory(|check.joints|, run) && InOrder(when)
    ensures |seen.positions| == |check.joints|
    ensures var earlier := run(when(first)); var later := run(when(first + |check.joints| + 2));
            admitted && later.bumps < earlier.bumps + WRAP ==>
              earlier.published == later.published != [] && seen == Newest(later)
    ensures admitted ==> hasFeedbackAge && Admissible(check, seen, goal)
    ensures admitted ==> Loaded(run, when, first, seen.positions, seen.age)
    ensures !admitted && hasFeedbackAge && |failed| < ATTEMPTS ==>
              Loaded(run, when, first, seen.positions, seen.age) && !Admissible(check, seen, goal)
    ensures forall i | 0 <= i < |failed| :: Disturbed(run, when, failed[i].0, failed[i].1)
  {
    seen, first, failed := Unwritten(|check.joints|), 0, [];
    if !hasFeedbackAge {
      return false, seen, first, failed;
    }
    var copied, actual, age;
    copied, actual, age, first, failed := ReadSnapshot(|check.joints|, run, when);
    seen := Snapshot(actual, age);
    if !copied || !FreshEnough(check, age) {
      return false, seen, first, failed;
    }
    for joint := 0 to |check.joints|
      invariant forall j | 0 <= j < joint :: JointAgrees(check, actual, goal, j)
    {
      var index := Find(goal.names, check.joints[joint]);
      if index < 0 || !Near(actual[joint], goal.first[index], check.tolerances[joint]) {
        assert !JointAgrees(check, actual, goal, joint);
        return false, seen, first, failed;
      }
    }
    admitted := true;
  }

  // ---------- The order of the joints in the goal ----------

  function Entries(goal: Goal): (r: seq<(string, Number)>)
    ensures |r| == |goal.names|
    ensures forall i | 0 <= i < |r| :: r[i] == (goal.names[i], goal.first[i])
  {
    seq(|goal.names|, i requires 0 <= i < |goal.names| => (goal.names[i], goal.first[i]))
  }

  predicate Distinct(names: seq<string>) {
    forall i, j | 0 <= i < j < |names| :: names[i] != names[j]
  }

  /** The same names with the same positions, in any order. */
  predicate Reordered(a: Goal, b: Goal) {
    multiset(Entries(a)) == multiset(Entries(b))
  }

  lemma EntryCarriesOver(a: Goal, b: Goal, i: nat) returns (k: nat)
    requires Reordered(a, b) && i < |a.names|
    ensures k < |b.names| && b.names[k] == a.names[i] && b.first[k] == a.first[i]
  {
    assert Entries(a)[i] in multiset(Entries(a));
    assert Entries(a)[i] in multiset(Entries(b));
    k :| 0 <= k < |Entries(b)| && Entries(b)[k] == Entries(a)[i];
  }

  lemma SameEntry(a: Goal, b: Goal, name: string)
    requires Reordered(a, b) && Distinct(a.names)
    ensures var i, k := Find(a.names, name), Find(b.names, name);
            (i < 0 <==> k < 0) && (i >= 0 ==> a.first[i] == b.first[k])
  {
    var i, k := Find(a.names, name), Find(b.names, name);
    if i >= 0 {
      var _ := EntryCarriesOver(a, b, i);
    }
    if k >= 0 {
      var back := EntryCarriesOver(b, a, k);
      assert a.names[i] == a.names[back];
    }
  }

  /** Reordering a goal that names each joint once never changes the verdict. */
  lemma OrderDoesNotMatter(check: Check, snapshot: Snapshot, a: Goal, b: Goal)
    requires Reordered(a, b) && Distinct(a.names) && |snapshot.positions| == |check.joints|
    ensures Admissible(check, snapshot, a) <==> Admissible(check, snapshot, b)
  {
    forall j | 0 <= j < |check.joints|
      ensures JointAgrees(check, snapshot.positions, a, j) <==> JointAgrees(check, snapshot.positions, b, j)
    {
      SameEntry(a, b, check.joints[j]);
    }
  }

  // ---------- Names given more than once ----------

  /** The position is near that of every configured joint of the name. */
  predicate Fits(check: Check, positions: seq<Number>, name: string, position: Number)
    requires |positions| == |check.joints|
  {
    forall j | 0 <= j < |check.joints| && check.joints[j] == name :: Near(positions[j], position, check.tolerances[j])
  }

  /** Some entry of the goal carries the joint's name and fits. */
  predicate SomeEntryFits(check: Check, positions: seq<Number>, goal: Goal, joint: nat)
    requires joint < |check.joints| == |positions|
  {
    exists i | 0 <= i < |goal.names| && goal.names[i] == check.joints[joint] ::
      Fits(check, positions, check.joints[joint], goal.first[i])
  }

  /** Entries of the goal carry the joint's name, and all of them are near. */
  predicate EveryEntryIsNear(check: Check, positions: seq<Number>, goal: Goal, joint: nat)
    requires joint < |check.joints| == |positions|
  {
    check.joints[joint] in goal.names &&
    forall i | 0 <= i < |goal.names| && goal.names[i] == check.joints[joint] ::
      Near(positions[joint], goal.first[i], check.tolerances[joint])
  }

  /** The goal with one entry put before all others. */
  function MoveToFront(goal: Goal, i: nat): (r: Goal)
    requires i < |goal.names|
  {
    Goal([goal.names[i]] + goal.names[..i] + goal.names[i + 1..],
         [goal.first[i]] + goal.first[..i] + goal.first[i + 1..])
  }

  lemma MoveIsReordering(goal: Goal, i: nat)
    requires i < |goal.names|
    ensures Reordered(goal, MoveToFront(goal, i))
  {
    var e := Entries(goal);
    assert Entries(MoveToFront(goal, i)) == [e[i]] + e[..i] + e[i + 1..];
    assert e == e[..i] + [e[i]] + e[i + 1..];
  }

  lemma FindIsFirst(names: seq<string>, name: string, r: nat)
    requires r < |names| && names[r] == name && name !in names[..r]
    ensures Find(names, name) == r
  {
    assert forall k | 0 <= k < r :: names[..r][k] == names[k];
  }

  /** The moved entry is found for its name; what is found for others stays. */
  lemma FindAfterMove(goal: Goal, i: nat, name: string)
    requires i < |goal.names|
    ensures var b := MoveToFront(goal, i); var k, r := Find(goal.names, name), Find(b.names, name);
            if name == goal.names[i] then r == 0 && b.first[0] == goal.first[i]
            else (r < 0 <==> k < 0) && (k >= 0 ==> b.first[r] == goal.first[k])
  {
    var k := Find(goal.names, name);
    hide Find;
    if name == goal.names[i] {
      FindIsFirst(MoveToFront(goal, i).names, name, 0);
    } else if 0 <= k < i {
      FindBehindMoved(goal, i, k);
    } else if k > i {
      FindAheadOfMoved(goal, i, k);
    } else {
      NamesAfterMove(goal, i);
    }
  }

  lemma NamesAfterMove(goal: Goal, i: nat)
    requires i < |goal.names|
    ensures forall name :: name in MoveToFront(goal, i).names <==> name in goal.names
  {
    assert goal.names == goal.names[..i] + [goal.names[i]] + goal.names[i + 1..];
  }

  lemma FindBehindMoved(goal: Goal, i: nat, k: nat)
    requires k < i < |goal.names| && goal.names[k] != goal.names[i] && goal.names[k] !in goal.names[..k]
    ensures Find(MoveToFront(goal, i).names, goal.names[k]) == k + 1
  {
    var names := MoveToFront(goal, i).names;
    assert names[..k + 1] == [goal.names[i]] + goal.names[..k];
    FindIsFirst(names, goal.names[k], k + 1);
  }

  lemma FindAheadOfMoved(goal: Goal, i: nat, k: nat)
    requires i < k < |goal.names| && goal.names[k] != goal.names[i] && goal.names[k] !in goal.names[..k]
    ensures Find(MoveToFront(goal, i).names, goal.names[k]) == k
  {
    var names := MoveToFront(goal, i).names;
    assert goal.names[..k] == goal.names[..i] + [goal.names[i]] + goal.names[i + 1..k];
    assert names[..k] == [goal.names[i]] + goal.names[..i] + goal.names[i + 1..k];
    FindIsFirst(names, goal.names[k], k);
  }

  lemma ReorderingComposes(a: Goal, b: Goal, c: Goal)
    requires Reordered(a, b) && Reordered(b, c)
    ensures Reordered(a, c) && Reordered(b, a)
  {
  }

  /** An order that puts fitting entries first for the joints before `joint`. */
  lemma {:induction false} FittingOrder(check: Check, positions: seq<Number>, goal: Goal, joint: nat)
    returns (b: Goal)
    requires |positions| == |check.joints| && joint <= |check.joints|
    requires forall j | 0 <= j < |check.joints| :: SomeEntryFits(check, positions, goal, j)
    ensures Reordered(goal, b)
    ensures forall j | 0 <= j < joint :: JointAgrees(check, positions, b, j)
  {
    b := goal;
    if joint > 0 {
      var a := FittingOrder(check, positions, goal, joint - 1);
      var name := check.joints[joint - 1];
      assert SomeEntryFits(check, positions, goal, joint - 1);
      var i :| 0 <= i < |goal.names| && goal.names[i] == name && Fits(check, positions, name, goal.first[i]);
      var k := EntryCarriesOver(goal, a, i);
      b := MoveToFront(a, k);
      MoveIsReordering(a, k);
      ReorderingComposes(goal, a, b);
      forall j | 0 <= j < joint
        ensures JointAgrees(check, positions, b, j)
      {
        FindAfterMove(a, k, check.joints[j]);
        assert j < joint - 1 ==> JointAgrees(check, positions, a, j);
      }
    }
  }

  /** Some order of the entries is admitted exactly if the snapshot is fresh and
      every joint's name has an entry that fits all joints of that name. */
  lemma SomeOrderIsAdmitted(check: Check, snapshot: Snapshot, goal: Goal)
    requires |snapshot.positions| == |check.joints|
    ensures (exists b: Goal :: Reordered(goal, b) && Admissible(check, snapshot, b)) <==>
            FreshEnough(check, snapshot.age) &&
            forall j | 0 <= j < |check.joints| :: SomeEntryFits(check, snapshot.positions, goal, j)
  {
    var positions := snapshot.positions;
    if b: Goal :| Reordered(goal, b) && Admissible(check, snapshot, b) {
      forall j | 0 <= j < |check.joints|
        ensures SomeEntryFits(check, positions, goal, j)
      {
        assert JointAgrees(check, positions, b, j);
        var r := Find(b.names, check.joints[j]);
        var i := EntryCarriesOver(b, goal, r);
        forall j' | 0 <= j' < |check.joints| && check.joints[j'] == check.joints[j]
          ensures Near(positions[j'], goal.first[i], check.tolerances[j'])
        {
          assert JointAgrees(check, positions, b, j');
        }
        assert Fits(check, positions, check.joints[j], goal.first[i]);
      }
    }
    if FreshEnough(check, snapshot.age) &&
       forall j | 0 <= j < |check.joints| :: SomeEntryFits(check, positions, goal, j) {
      var b := FittingOrder(check, positions, goal, |check.joints|);
      assert Admissible(check, snapshot, b);
    }
  }

  /** Every order of the entries is admitted exactly if the snapshot is fresh and
      every joint has entries of its name that are all near it. */
  lemma EveryOrderIsAdmitted(check: Check, snapshot: Snapshot, goal: Goal)
    requires |snapshot.positions| == |check.joints|
    ensures (forall b: Goal | Reordered(goal, b) :: Admissible(check, snapshot, b)) <==>
            FreshEnough(check, snapshot.age) &&
            forall j | 0 <= j < |check.joints| :: EveryEntryIsNear(check, snapshot.positions, goal, j)
  {
    var positions := snapshot.positions;
    if forall b: Goal | Reordered(goal, b) :: Admissible(check, snapshot, b) {
      assert Reordered(goal, goal);
      forall j, i | 0 <= j < |check.joints| && 0 <= i < |goal.names| && goal.names[i] == check.joints[j]
        ensures Near(positions[j], goal.first[i], check.tolerances[j])
      {
        MoveIsReordering(goal, i);
        FindAfterMove(goal, i, check.joints[j]);
        assert JointAgrees(check, positions, MoveToFront(goal, i), j);
      }
      forall j | 0 <= j < |check.joints|
        ensures check.joints[j] in goal.names
      {
        assert JointAgrees(check, positions, goal, j);
      }
    }
    if FreshEnough(check, snapshot.age) &&
       forall j | 0 <= j < |check.joints| :: EveryEntryIsNear(check, positions, goal, j) {
      forall b: Goal, j | Reordered(goal, b) && 0 <= j < |check.joints|
        ensures JointAgrees(check, positions, b, j)
      {
        assert EveryEntryIsNear(check, positions, goal, j);
        EntryIsFound(goal, b, check.joints[j]);
      }
    }
  }

  /** What any order finds for a name is one of the entries that carry it. */
  lemma EntryIsFound(a: Goal, b: Goal, name: string)
    requires Reordered(a, b) && name in a.names
    ensures var r := Find(b.names, name);
            r >= 0 && exists i :: 0 <= i < |a.names| && a.names[i] == name && a.first[i] == b.first[r]
  {
    var i :| 0 <= i < |a.names| && a.names[i] == name;
    var k := EntryCarriesOver(a, b, i);
    ReorderingComposes(a, b, a);
    var back := EntryCarriesOver(b, a, Find(b.names, name));
  }

  function NameSet(names: seq<string>): set<string> {
    set name | name in names
  }

  lemma {:induction false} NameCount(names: seq<string>)
    ensures |NameSet(names)| <= |names|
    ensures |NameSet(names)| == |names| <==> Distinct(names)
  {
    if names != [] {
      var name, rest := names[0], names[1..];
      NameCount(rest);
      assert names == [name] + rest;
      DistinctWithFirst(name, rest);
      if name in rest {
        assert NameSet(names) == NameSet(rest);
      } else {
        assert NameSet(names) == NameSet(rest) + {name};
      }
      hide Distinct;
    }
  }

  lemma DistinctWithFirst(name: string, rest: seq<string>)
    ensures Distinct([name] + rest) <==> name !in rest && Distinct(rest)
  {
    var names := [name] + rest;
    assert forall i | 0 <= i < |rest| :: names[i + 1] == rest[i];
    if Distinct(names) {
      forall i | 0 <= i < |rest| ensures rest[i] != name {
        assert names[0] != names[i + 1];
      }
      forall i, j | 0 <= i < j < |rest| ensures rest[i] != rest[j] {
        assert names[i + 1] != names[j + 1];
      }
    }
    if name !in rest && Distinct(rest) {
      forall i, j | 0 <= i < j < |names| ensures names[i] != names[j] {
        assert names[j] == rest[j - 1];
        assert i > 0 ==> names[i] == rest[i - 1];
      }
    }
  }

  lemma SubsetIsSmaller<T>(a: set<T>, b: set<T>)
    requires a <= b
    ensures |a| <= |b|
  {
    assert b == a + (b - a);
  }

  /** A goal with as many names as there are joints is admitted only if it names
      each joint exactly once, so for such goals no order can matter. */
  lemma FullGoalNamesEachJointOnce(check: Check, snapshot: Snapshot, goal: Goal)
    requires Distinct(check.joints) && |goal.names| == |check.joints| == |snapshot.positions|
    requires Admissible(check, snapshot, goal)
    ensures Distinct(goal.names)
    ensures forall name :: name in goal.names <==> name in check.joints
  {
    forall j | 0 <= j < |check.joints|
      ensures check.joints[j] in goal.names
    {
      assert JointAgrees(check, snapshot.positions, goal, j);
    }
    var joints, names := NameSet(check.joints), NameSet(goal.names);
    NameCount(check.joints);
    NameCount(goal.names);
    assert joints <= names;
    SubsetIsSmaller(joints, names);
    assert |names - joints| == |names| - |joints| == 0;
    assert names == joints;
    forall name
      ensures name in goal.names <==> name in check.joints
    {
      assert name in names <==> name in goal.names;
      assert name in joints <==> name in check.joints;
    }
  }
}
