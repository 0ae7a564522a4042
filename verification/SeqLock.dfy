/** The sequence lock through which the trajectory controller's cycle publishes
    joint positions and feedback age to the goal callback.  Every step of the
    writer is one load or store of one atomic word; the reader's loads fall
    anywhere between them. */
module SeqLock {
  import opened Values

  datatype Snapshot = Snapshot(positions: seq<Number>, age: Number)

  /** The sequence word has 64 bits. */
  const WRAP: nat := 0x1_0000_0000_0000_0000

  /** Between its two increments the writer has stored the first `next` words
      of `snapshot`, the age being the last one. */
  datatype Writer = Outside | Storing(snapshot: Snapshot, next: nat)

  /** The shared words, and three auxiliary variables: where the writer is, the
      number of increments so far, and every snapshot published so far. */
  datatype Shared = Shared(
    sequence: nat,
    positions: seq<Number>,
    age: Number,
    writer: Writer,
    bumps: nat,
    published: seq<Snapshot>)

  function Bump(m: Shared): Shared {
    m.(sequence := (m.sequence + 1) % WRAP, bumps := m.bumps + 1)
  }

  function Unwritten(dof: nat): Snapshot {
    Snapshot(seq(dof, i => NotFinite), NotFinite)
  }

  /** After configuration. */
  function Configured(dof: nat): Shared {
    var nothing := Unwritten(dof);
    Shared(0, nothing.positions, nothing.age, Outside, 0, [nothing])
  }

  // ---------- The steps that change the shared words ----------

  ghost predicate Begins(dof: nat, m: Shared, n: Shared) {
    m.writer.Outside? && n.writer.Storing? && |n.writer.snapshot.positions| == dof && n.writer.next == 0 &&
    n == Bump(m).(writer := n.writer)
  }

  ghost predicate StoresPosition(dof: nat, m: Shared, n: Shared) {
    m.writer.Storing? && m.writer.next < dof && |m.positions| == dof == |m.writer.snapshot.positions| &&
    n == m.(positions := m.positions[m.writer.next := m.writer.snapshot.positions[m.writer.next]],
            writer := m.writer.(next := m.writer.next + 1))
  }

  ghost predicate StoresAge(dof: nat, m: Shared, n: Shared) {
    m.writer.Storing? && m.writer.next == dof &&
    n == m.(age := m.writer.snapshot.age, writer := m.writer.(next := dof + 1))
  }

  ghost predicate Ends(dof: nat, m: Shared, n: Shared) {
    m.writer.Storing? && m.writer.next == dof + 1 &&
    n == Bump(m).(writer := Outside, published := m.published + [m.writer.snapshot])
  }

  /** Deactivation invalidates the age without taking the lock. */
  ghost predicate Stops(m: Shared, n: Shared) {
    n == m.(age := NotFinite)
  }

  ghost predicate Step(dof: nat, m: Shared, n: Shared) {
    n == m || Begins(dof, m, n) || StoresPosition(dof, m, n) || StoresAge(dof, m, n) || Ends(dof, m, n) || Stops(m, n)
  }

  /** The shared words at every instant. */
  ghost predicate IsHistory(dof: nat, run: nat -> Shared) {
    run(0) == Configured(dof) && forall t: nat :: Step(dof, run(t), run(t + 1))
  }

  // ---------- What the writer keeps ----------

  function Newest(m: Shared): Snapshot
    requires m.published != []
  {
    m.published[|m.published| - 1]
  }

  predicate AgeOf(age: Number, snapshot: Snapshot) {
    age == snapshot.age || age == NotFinite
  }

  ghost predicate Inv(dof: nat, m: Shared) {
    && |m.positions| == dof
    && m.sequence == m.bumps % WRAP
    && |m.published| == m.bumps / 2 + 1
    && (m.writer.Outside? <==> m.bumps % 2 == 0)
    && match m.writer
       case Outside => m.positions == Newest(m).positions && AgeOf(m.age, Newest(m))
       case Storing(snapshot, next) =>
         && next <= dof + 1 && |snapshot.positions| == dof
         && (forall i | 0 <= i < next && i < dof :: m.positions[i] == snapshot.positions[i])
         && (next == dof + 1 ==> AgeOf(m.age, snapshot))
  }

  lemma StepKeepsInv(dof: nat, m: Shared, n: Shared)
    requires Inv(dof, m) && Step(dof, m, n)
    ensures Inv(dof, n)
    ensures m.bumps <= n.bumps && m.published <= n.published
    ensures m.bumps == n.bumps && m.bumps % 2 == 0 ==>
              n.positions == m.positions && n.published == m.published && (n.age == m.age || n.age == NotFinite)
  {
    if Ends(dof, m, n) {
      assert n.positions == m.writer.snapshot.positions;
    }
  }

  lemma {:induction false} HistoryInv(dof: nat, run: nat -> Shared, t: nat)
    requires IsHistory(dof, run)
    ensures Inv(dof, run(t))
  {
    if t > 0 {
      HistoryInv(dof, run, t - 1);
      StepKeepsInv(dof, run(t - 1), run(t));
    }
  }

  /** Time only adds publications; while the count of increments stands still at
      an even number, so do the positions, and the age can only be invalidated. */
  lemma {:induction false} Between(dof: nat, run: nat -> Shared, t: nat, u: nat)
    requires IsHistory(dof, run) && t <= u
    ensures run(t).bumps <= run(u).bumps && run(t).published <= run(u).published
    ensures run(t).bumps == run(u).bumps && run(t).bumps % 2 == 0 ==>
              run(u).positions == run(t).positions && run(u).published == run(t).published &&
              (run(u).age == run(t).age || run(u).age == NotFinite)
    decreases u - t
  {
    if t < u {
      HistoryInv(dof, run, t);
      StepKeepsInv(dof, run(t), run(t + 1));
      Between(dof, run, t + 1, u);
    }
  }

  /** Equal sequence words less than a wrap apart mean that nothing was published. */
  lemma SameSequence(a: nat, b: nat)
    requires a <= b < a + WRAP && a % WRAP == b % WRAP
    ensures a == b
  {
    assert (b - a) % WRAP == 0 by {
      assert b - a == (b / WRAP - a / WRAP) * WRAP;
      assert ((b / WRAP - a / WRAP) * WRAP) % WRAP == 0;
    }
  }

  lemma SequenceParity(bumps: nat)
    ensures (bumps % WRAP) % 2 == bumps % 2
  {
    assert bumps == bumps / WRAP * WRAP + bumps % WRAP;
  }

  /** Loads come one after the other; `when` says at which instant each falls. */
  ghost predicate InOrder(when: nat -> nat) {
    forall k: nat :: when(k) <= when(k + 1)
  }

  lemma {:induction false} Later(when: nat -> nat, j: nat, k: nat)
    requires InOrder(when) && j <= k
    ensures when(j) <= when(k)
    decreases k - j
  {
    if j < k {
      Later(when, j + 1, k);
    }
  }

  /** An attempt that makes loads `first` to `last` met the writer. */
  ghost predicate Disturbed(run: nat -> Shared, when: nat -> nat, first: nat, last: nat) {
    run(when(first)).bumps % 2 == 1 || run(when(first)).bumps != run(when(last)).bumps
  }

  /** What loads `first + 1 ..` of an attempt return. */
  ghost predicate Loaded(run: nat -> Shared, when: nat -> nat, first: nat, positions: seq<Number>, age: Number) {
    && age == run(when(first + 1)).age
    && forall i | 0 <= i < |positions| :: PositionIn(run(when(first + 2 + i)), i, positions[i])
  }

  ghost predicate PositionIn(m: Shared, i: nat, value: Number) {
    i < |m.positions| && m.positions[i] == value
  }

  /** An undisturbed attempt loads the newest publication, which is the same one
      at its first and at its last load. */
  lemma UndisturbedIsExact(dof: nat, run: nat -> Shared, when: nat -> nat, first: nat,
                           positions: seq<Number>, age: Number)
    requires IsHistory(dof, run) && InOrder(when) && |positions| == dof
    requires Loaded(run, when, first, positions, age)
    requires !Disturbed(run, when, first, first + dof + 2)
    ensures var earlier := run(when(first)); var later := run(when(first + dof + 2));
            earlier.published == later.published != [] &&
            positions == Newest(later).positions && AgeOf(age, Newest(later))
  {
    var last := first + dof + 2;
    HistoryInv(dof, run, when(first));
    Undisturbed(dof, run, when, first, last, first + 1);
    Undisturbed(dof, run, when, first, last, last);
    forall i | 0 <= i < dof
      ensures positions[i] == Newest(run(when(first))).positions[i]
    {
      Undisturbed(dof, run, when, first, last, first + 2 + i);
    }
  }

  lemma Undisturbed(dof: nat, run: nat -> Shared, when: nat -> nat, first: nat, last: nat, k: nat)
    requires IsHistory(dof, run) && InOrder(when) && first <= k <= last
    requires !Disturbed(run, when, first, last)
    ensures run(when(k)).positions == run(when(first)).positions
    ensures run(when(k)).published == run(when(first)).published
    ensures run(when(k)).age == run(when(first)).age || run(when(k)).age == NotFinite
  {
    Later(when, first, k);
    Later(when, k, last);
    Between(dof, run, when(first), when(k));
    Between(dof, run, when(k), when(last));
  }

  /** The loads between the two looks at the sequence word. */
  method CopySnapshot(dof: nat, run: nat -> Shared, when: nat -> nat, first: nat)
    returns (positions: seq<Number>, age: Number)
    requires IsHistory(dof, run)
    ensures |positions| == dof && Loaded(run, when, first, positions, age)
  {
    age := run(when(first + 1)).age;
    positions := [];
    for index := 0 to dof
      invariant |positions| == index
      invariant forall i | 0 <= i < index :: PositionIn(run(when(first + 2 + i)), i, positions[i])
    {
      HistoryInv(dof, run, when(first + 2 + index));
      positions := positions + [run(when(first + 2 + index)).positions[index]];
    }
  }

  const ATTEMPTS: nat := 1000

  /** The reader's retry loop.  `first` and `last` number the loads of the
      sequence word that bracket the successful attempt; `failed` are those of
      the attempts that did not succeed. */
  method ReadSnapshot(dof: nat, run: nat -> Shared, when: nat -> nat)
    returns (copied: bool, positions: seq<Number>, age: Number, ghost first: nat, ghost failed: seq<(nat, nat)>)
    requires IsHistory(dof, run) && InOrder(when)
    ensures |positions| == dof
    ensures copied ==>
              var earlier := run(when(first)); var later := run(when(first + dof + 2));
              later.bumps < earlier.bumps + WRAP ==>
              earlier.published == later.published != [] &&
              positions == Newest(later).positions && AgeOf(age, Newest(later))
    ensures copied ==> Loaded(run, when, first, positions, age)
    ensures !copied ==> |failed| == ATTEMPTS
    ensures forall i | 0 <= i < |failed| :: Disturbed(run, when, failed[i].0, failed[i].1)
    ensures forall i, j | 0 <= i < j < |failed| :: failed[i].1 < failed[j].0
  {
    hide Disturbed, Loaded, IsHistory, InOrder, Inv;
    positions, age := seq(dof, i => NotFinite), NotFinite;
    copied, first, failed := false, 0, [];
    var attempt, load := 0, 0;
    while attempt < ATTEMPTS
      invariant attempt <= ATTEMPTS && |failed| == attempt && |positions| == dof
      invariant AllDisturbed(run, when, failed, load)
      decreases ATTEMPTS - attempt
    {
      first := load;
      var before := run(when(load)).sequence;
      load := load + 1;
      attempt := attempt + 1;
      if before % 2 != 0 {
        OddIsDisturbed(dof, run, when, first);
        failed := failed + [(first, first)];
        continue;
      }
      positions, age := CopySnapshot(dof, run, when, load - 1);
      load := load + 1 + dof;
      var after := run(when(load)).sequence;
      if before == after && after % 2 == 0 {
        copied := true;
        ExactOrWrapped(dof, run, when, first, positions, age);
        return;
      }
      ChangeIsDisturbed(dof, run, when, first, load);
      failed := failed + [(first, load)];
      load := load + 1;
    }
  }

  /** Attempts that met the writer, one after the other, all before load `end`. */
  ghost predicate AllDisturbed(run: nat -> Shared, when: nat -> nat, attempts: seq<(nat, nat)>, end: nat) {
    && (forall i | 0 <= i < |attempts| :: Disturbed(run, when, attempts[i].0, attempts[i].1) && attempts[i].1 < end)
    && (forall i, j | 0 <= i < j < |attempts| :: attempts[i].1 < attempts[j].0)
  }

  lemma OddIsDisturbed(dof: nat, run: nat -> Shared, when: nat -> nat, first: nat)
    requires IsHistory(dof, run) && run(when(first)).sequence % 2 != 0
    ensures Disturbed(run, when, first, first)
  {
    HistoryInv(dof, run, when(first));
    SequenceParity(run(when(first)).bumps);
  }

  lemma ChangeIsDisturbed(dof: nat, run: nat -> Shared, when: nat -> nat, first: nat, last: nat)
    requires IsHistory(dof, run)
    requires run(when(first)).sequence != run(when(last)).sequence
    ensures Disturbed(run, when, first, last)
  {
    HistoryInv(dof, run, when(first));
    HistoryInv(dof, run, when(last));
  }

  lemma ExactOrWrapped(dof: nat, run: nat -> Shared, when: nat -> nat, first: nat,
                       positions: seq<Number>, age: Number)
    requires IsHistory(dof, run) && InOrder(when) && |positions| == dof
    requires Loaded(run, when, first, positions, age)
    requires run(when(first)).sequence == run(when(first + dof + 2)).sequence
    requires run(when(first)).sequence % 2 == 0
    ensures var earlier := run(when(first)); var later := run(when(first + dof + 2));
            later.bumps < earlier.bumps + WRAP ==>
            earlier.published == later.published != [] &&
            positions == Newest(later).positions && AgeOf(age, Newest(later))
  {
    var last := first + dof + 2;
    var earlier := run(when(first)); var later := run(when(last));
    HistoryInv(dof, run, when(first));
    HistoryInv(dof, run, when(last));
    Later(when, first, last);
    Between(dof, run, when(first), when(last));
    if later.bumps < earlier.bumps + WRAP {
      SameSequence(earlier.bumps, later.bumps);
      SequenceParity(earlier.bumps);
      UndisturbedIsExact(dof, run, when, first, positions, age);
    }
  }

  // ---------- Why the distance to a wrap matters ----------

  /** Publication k of a two-joint writer that never rests. */
  function BusyPublication(k: nat): Snapshot {
    if k == 0 then Unwritten(2) else Snapshot([Finite(k as real), Finite(k as real)], Finite(0.0))
  }

  function BusyPublished(count: nat): (r: seq<Snapshot>)
    ensures |r| == count && forall i | 0 <= i < count :: r[i] == BusyPublication(i)
  {
    seq(count, i requires i >= 0 => BusyPublication(i))
  }

  /** After r steps of publication k + 1. */
  function BusyAt(k: nat, r: nat): Shared {
    var previous, current := BusyPublication(k), BusyPublication(k + 1);
    var bumps := 2 * k + if r == 0 then 0 else 1;
    Shared(bumps % WRAP,
           [if r >= 2 then current.positions[0] else previous.positions[0],
            if r >= 3 then current.positions[1] else previous.positions[1]],
           if r == 4 then current.age else previous.age,
           if r == 0 then Outside else Storing(current, r - 1),
           bumps,
           BusyPublished(k + 1))
  }

  function BusyWriter(t: nat): Shared {
    BusyAt(t / 5, t % 5)
  }

  lemma BusyInside(k: nat, r: nat)
    requires r < 4
    ensures Step(2, BusyAt(k, r), BusyAt(k, r + 1))
  {
    var m, n := BusyAt(k, r), BusyAt(k, r + 1);
    assert r == 0 ==> Begins(2, m, n);
    assert r == 1 || r == 2 ==> StoresPosition(2, m, n);
    assert r == 3 ==> StoresAge(2, m, n);
  }

  lemma BusyEnds(k: nat)
    ensures Step(2, BusyAt(k, 4), BusyAt(k + 1, 0))
  {
    var m, n := BusyAt(k, 4), BusyAt(k + 1, 0);
    assert n.published == m.published + [m.writer.snapshot];
    assert n.positions == m.positions;
    assert Ends(2, m, n);
  }

  lemma BusyStep(t: nat)
    ensures Step(2, BusyWriter(t), BusyWriter(t + 1))
  {
    hide BusyAt, Step;
    var k, r := t / 5, t % 5;
    if r == 4 {
      assert (t + 1) / 5 == k + 1 && (t + 1) % 5 == 0;
      BusyEnds(k);
    } else {
      assert (t + 1) / 5 == k && (t + 1) % 5 == r + 1;
      BusyInside(k, r);
    }
  }

  /** A reader that loads the second position after one more publication, and the
      sequence word again exactly 2^63 publications after its first look. */
  function SlowReader(load: nat): nat {
    if load <= 2 then 0 else if load == 3 then 5 else 5 * (WRAP / 2) + load - 4
  }

  lemma WrappedReadIsTorn()
    ensures IsHistory(2, BusyWriter) && InOrder(SlowReader)
    ensures Loaded(BusyWriter, SlowReader, 0, [NotFinite, Finite(1.0)], NotFinite)
    ensures BusyWriter(SlowReader(0)).sequence == BusyWriter(SlowReader(4)).sequence == 0
    ensures forall s | s in BusyWriter(SlowReader(4)).published :: s.positions != [NotFinite, Finite(1.0)]
  {
    forall t: nat
      ensures Step(2, BusyWriter(t), BusyWriter(t + 1))
    {
      BusyStep(t);
    }
    assert BusyWriter(0).published == [Unwritten(2)];
    assert BusyWriter(0).positions == Unwritten(2).positions;
    assert PositionIn(BusyWriter(0), 0, NotFinite);
    assert PositionIn(BusyWriter(5), 1, Finite(1.0));
    assert SlowReader(4) / 5 == WRAP / 2 && SlowReader(4) % 5 == 0;
    assert 2 * (WRAP / 2) % WRAP == 0;
  }

  // ---------- Deactivation ----------

  /** After a deactivation between two publications, every read that loads the
      age before the next publication begins finds it invalid. */
  lemma StopIsSeen(dof: nat, run: nat -> Shared, t: nat, u: nat)
    requires IsHistory(dof, run) && t < u
    requires Stops(run(t), run(t + 1)) && run(t).writer.Outside? && run(u).bumps == run(t).bumps
    ensures run(u).age == NotFinite
  {
    HistoryInv(dof, run, t);
    Between(dof, run, t + 1, u);
  }

  // ---------- The writer ----------

  class AdmissionSnapshot {
    const dof: nat
    const positions: array<Number>
    var age: Number
    var sequence: nat
    ghost var writer: Writer
    ghost var bumps: nat
    ghost var published: seq<Snapshot>

    ghost function Now(): Shared
      reads this, positions
    {
      Shared(sequence, positions[..], age, writer, bumps, published)
    }

    constructor (dof: nat)
      ensures this.dof == dof && fresh(positions) && Now() == Configured(dof) && positions.Length == dof
    {
      this.dof := dof;
      positions := new Number[dof](i => NotFinite);
      age, sequence := NotFinite, 0;
      writer, bumps, published := Outside, 0, [Unwritten(dof)];
      new;
      assert positions[..] == Unwritten(dof).positions;
    }

    method FetchAdd()
      modifies this`sequence, this`bumps
      ensures Now() == Bump(old(Now()))
    {
      sequence, bumps := (sequence + 1) % WRAP, bumps + 1;
    }

    /** What the cycle does with the state it has read.  `steps` lists the shared
        words after each store: every one is a step of the protocol. */
    method Publish(current: seq<Number>, feedbackAge: Number) returns (ghost steps: seq<Shared>)
      requires |current| == dof && positions.Length == dof && writer.Outside?
      modifies this, positions
      ensures writer.Outside? && published == old(published) + [Snapshot(current, feedbackAge)]
      ensures positions[..] == current && age == feedbackAge && bumps == old(bumps) + 2
      ensures |steps| == dof + 4 && steps[0] == old(Now()) && steps[dof + 3] == Now()
      ensures forall i | 0 <= i < dof + 3 :: Step(dof, steps[i], steps[i + 1])
    {
      ghost var snapshot := Snapshot(current, feedbackAge);
      steps := [Now()];
      FetchAdd();
      writer := Storing(snapshot, 0);
      assert Begins(dof, steps[0], Now());
      steps := steps + [Now()];
      for index := 0 to dof
        invariant bumps == old(bumps) + 1 && published == old(published)
        invariant writer == Storing(snapshot, index)
        invariant forall i | 0 <= i < index :: positions[i] == current[i]
        invariant |steps| == index + 2 && steps[0] == old(Now()) && steps[index + 1] == Now()
        invariant forall i | 0 <= i < index + 1 :: Step(dof, steps[i], steps[i + 1])
      {
        ghost var m := Now();
        positions[index] := current[index];
        writer := Storing(snapshot, index + 1);
        assert StoresPosition(dof, m, Now());
        steps := steps + [Now()];
      }
      ghost var m := Now();
      age := feedbackAge;
      writer := Storing(snapshot, dof + 1);
      assert StoresAge(dof, m, Now());
      steps := steps + [Now()];
      m := Now();
      FetchAdd();
      writer, published := Outside, published + [snapshot];
      assert Ends(dof, m, Now());
      steps := steps + [Now()];
    }

    /** Deactivation. */
    method Invalidate()
      modifies this`age
      ensures Stops(old(Now()), Now())
    {
      age := NotFinite;
    }
  }
}
