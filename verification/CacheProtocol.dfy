/** Many processes asking for evidence at once: file reads, unlinks, stores and the lock as separate steps. */
module CacheProtocol {
  import opened Domain
  import opened Relational
  import opened Evidence
  import opened EvidenceCache

  /** Where a process stands. `locked` tells the look under the lock from the first one. */
  datatype Phase =
    | ReadPointer(locked: bool)
    | ReadRecord(locked: bool, id: EvidenceId)
    | DropRecord(locked: bool, id: EvidenceId)
    | DropPointer(locked: bool)
    | WaitLock
    | Verifying
    | StoreRecord(record: EvidenceRecord)
    | StorePointer(record: EvidenceRecord)
    | Unlock(record: EvidenceRecord)
    | Done(record: EvidenceRecord)

  datatype Process = Process(db: Database, seed: Seed, snapshotId: string, phase: Phase) {
    function Key(): Selector {
      Wanted(seed, snapshotId)
    }
  }

  /** `verified` logs every run of the verifier by selector. */
  datatype State = State(contents: Contents, locks: map<Selector, nat>, processes: seq<Process>, verified: multiset<Selector>)

  predicate Holds(p: Phase) {
    match p
    case ReadPointer(locked) => locked
    case ReadRecord(locked, _) => locked
    case DropRecord(locked, _) => locked
    case DropPointer(locked) => locked
    case Verifying | StoreRecord(_) | StorePointer(_) | Unlock(_) => true
    case WaitLock | Done(_) => false
  }

  // ---------------------------------------------------------------- steps

  function Missed(locked: bool): Phase {
    if locked then Verifying else WaitLock
  }

  function Found(locked: bool, r: EvidenceRecord): Phase {
    if locked then Unlock(r) else Done(r)
  }

  /** Where a reader of the pointer file goes next. */
  function AfterPointer(c: Contents, s: Selector, locked: bool): Phase {
    if s !in c.index then Missed(locked)
    else if c.index[s].Good? then ReadRecord(locked, c.index[s].value)
    else DropPointer(locked)
  }

  /** Where a reader of the record file goes next. */
  function AfterRecord(c: Contents, s: Selector, locked: bool, id: EvidenceId): Phase {
    if id !in c.evidence then DropPointer(locked)
    else if Loaded(c.evidence, id).None? then DropRecord(locked, id)
    else if SelectorOf(Loaded(c.evidence, id).value) == s then Found(locked, Loaded(c.evidence, id).value)
    else DropPointer(locked)
  }

  predicate CanStep(st: State, i: nat)
    requires i < |st.processes|
  {
    var p := st.processes[i];
    !p.phase.Done? && (p.phase.WaitLock? ==> p.Key() !in st.locks)
  }

  function Moved(st: State, i: nat, phase: Phase): State
    requires i < |st.processes|
  {
    st.(processes := st.processes[i := st.processes[i].(phase := phase)])
  }

  function Next(st: State, i: nat): State
    requires i < |st.processes| && CanStep(st, i)
    requires ValidDefinition(st.processes[i].seed.definition)
  {
    var p := st.processes[i];
    var s := p.Key();
    var c := st.contents;
    match p.phase
    case ReadPointer(locked) => Moved(st, i, AfterPointer(c, s, locked))
    case ReadRecord(locked, id) => Moved(st, i, AfterRecord(c, s, locked, id))
    case DropRecord(locked, id) => Moved(st.(contents := c.(evidence := c.evidence - {id})), i, DropPointer(locked))
    case DropPointer(locked) => Moved(st.(contents := c.(index := c.index - {s})), i, Missed(locked))
    case WaitLock => Moved(st.(locks := st.locks[s := i]), i, ReadPointer(true))
    case Verifying => Moved(st.(verified := st.verified + multiset{s}), i, StoreRecord(Verify(p.db, p.seed, p.snapshotId)))
    case StoreRecord(r) => Moved(st.(contents := c.(evidence := c.evidence[r.evidenceId := Good(r)])), i, StorePointer(r))
    case StorePointer(r) => Moved(st.(contents := c.(index := c.index[SelectorOf(r) := Good(r.evidenceId)])), i, Unlock(r))
    case Unlock(r) => Moved(st.(locks := st.locks - {s}), i, Done(r))
  }

  ghost predicate Sound(st: State) {
    forall i :: 0 <= i < |st.processes| ==> ValidDefinition(st.processes[i].seed.definition)
  }

  ghost predicate Step(before: State, after: State) {
    Sound(before) && exists i: nat :: i < |before.processes| && CanStep(before, i) && after == Next(before, i)
  }

  ghost predicate Starting(st: State) {
    && Sound(st) && st.locks == map[] && st.verified == multiset{}
    && forall i :: 0 <= i < |st.processes| ==> st.processes[i].phase == ReadPointer(false)
  }

  ghost predicate Run(run: seq<State>) {
    && run != [] && Starting(run[0])
    && forall k :: 0 <= k < |run| - 1 ==> Step(run[k], run[k + 1])
  }

  // ---------------------------------------------------------------- any start: answers match

  /** Holding phases and the lock table agree, and records carried along answer the request. */
  ghost predicate Matching(p: Process)
    requires ValidDefinition(p.seed.definition)
  {
    match p.phase
    case StoreRecord(r) => r == Verify(p.db, p.seed, p.snapshotId)
    case StorePointer(r) => r == Verify(p.db, p.seed, p.snapshotId)
    case Unlock(r) => SelectorOf(r) == p.Key()
    case Done(r) => SelectorOf(r) == p.Key()
    case _ => true
  }

  ghost predicate LocksHeld(st: State) {
    && (forall s :: s in st.locks ==>
          st.locks[s] < |st.processes| && st.processes[st.locks[s]].Key() == s && Holds(st.processes[st.locks[s]].phase))
    && (forall i :: 0 <= i < |st.processes| && Holds(st.processes[i].phase) ==>
          st.processes[i].Key() in st.locks && st.locks[st.processes[i].Key()] == i)
  }

  ghost predicate Orderly(st: State) {
    && Sound(st) && LocksHeld(st)
    && forall i :: 0 <= i < |st.processes| ==> Matching(st.processes[i])
  }

  /** One process moves, and only taking or releasing its own lock touches the lock table. */
  ghost predicate Moves(st: State, i: nat, next: State)
    requires i < |st.processes|
  {
    && |next.processes| == |st.processes|
    && (forall j :: 0 <= j < |st.processes| && j != i ==> next.processes[j] == st.processes[j])
    && next.processes[i].(phase := st.processes[i].phase) == st.processes[i]
    && Rank(next.processes[i].phase) < Rank(st.processes[i].phase)
    && TurnsLock(st.processes[i].Key(), i, st.processes[i].phase, st.locks, next.processes[i].phase, next.locks)
  }

  ghost predicate TurnsLock(s: Selector, i: nat, before: Phase, locks: map<Selector, nat>, after: Phase, locked: map<Selector, nat>) {
    if before.WaitLock? then s !in locks && locked == locks[s := i] && Holds(after)
    else if before.Unlock? then locked == locks - {s} && !Holds(after)
    else locked == locks && Holds(after) == Holds(before)
  }

  lemma StepMoves(st: State, i: nat)
    requires Sound(st) && i < |st.processes| && CanStep(st, i)
    ensures Moves(st, i, Next(st, i))
  {
    if st.processes[i].phase.WaitLock? || st.processes[i].phase.Unlock? {
      LockStepMoves(st, i);
    } else {
      OtherStepMoves(st, i);
    }
  }

  lemma LockStepMoves(st: State, i: nat)
    requires Sound(st) && i < |st.processes| && CanStep(st, i)
    requires st.processes[i].phase.WaitLock? || st.processes[i].phase.Unlock?
    ensures Moves(st, i, Next(st, i))
  {
  }

  lemma OtherStepMoves(st: State, i: nat)
    requires Sound(st) && i < |st.processes| && CanStep(st, i)
    requires !st.processes[i].phase.WaitLock? && !st.processes[i].phase.Unlock?
    ensures Moves(st, i, Next(st, i))
  {
    var next := Next(st, i);
    assert ValidDefinition(st.processes[i].seed.definition);
    StepShape(st, i);
    PhaseFalls(st.contents, st.processes[i]);
    ShiftMoves(st, i, next.contents, next.verified, PhaseAfter(st.contents, st.processes[i]));
  }

  lemma StepShape(st: State, i: nat)
    requires Sound(st) && i < |st.processes| && CanStep(st, i)
    requires !st.processes[i].phase.WaitLock? && !st.processes[i].phase.Unlock?
    requires ValidDefinition(st.processes[i].seed.definition)
    ensures var next := Next(st, i);
      next == Moved(st.(contents := next.contents, verified := next.verified), i, PhaseAfter(st.contents, st.processes[i]))
  {
  }

  /** Where a process that neither takes nor releases its lock goes on. */
  function PhaseAfter(c: Contents, p: Process): Phase
    requires ValidDefinition(p.seed.definition)
  {
    match p.phase
    case ReadPointer(locked) => AfterPointer(c, p.Key(), locked)
    case ReadRecord(locked, id) => AfterRecord(c, p.Key(), locked, id)
    case DropRecord(locked, _) => DropPointer(locked)
    case DropPointer(locked) => Missed(locked)
    case Verifying => StoreRecord(Verify(p.db, p.seed, p.snapshotId))
    case StoreRecord(r) => StorePointer(r)
    case StorePointer(r) => Unlock(r)
    case WaitLock | Unlock(_) | Done(_) => p.phase
  }

  lemma PhaseFalls(c: Contents, p: Process)
    requires ValidDefinition(p.seed.definition) && !p.phase.WaitLock? && !p.phase.Unlock? && !p.phase.Done?
    ensures Rank(PhaseAfter(c, p)) < Rank(p.phase) && Holds(PhaseAfter(c, p)) == Holds(p.phase)
  {
  }

  lemma ShiftMoves(st: State, i: nat, c: Contents, verified: multiset<Selector>, phase: Phase)
    requires i < |st.processes| && !st.processes[i].phase.WaitLock? && !st.processes[i].phase.Unlock?
    requires Rank(phase) < Rank(st.processes[i].phase) && Holds(phase) == Holds(st.processes[i].phase)
    ensures Moves(st, i, Moved(st.(contents := c, verified := verified), i, phase))
  {
  }

  lemma LocksStayHeld(st: State, i: nat, next: State)
    requires LocksHeld(st) && i < |st.processes| && Moves(st, i, next)
    ensures LocksHeld(next)
  {
    var s := st.processes[i].Key();
    assert forall j :: 0 <= j < |st.processes| ==> next.processes[j].Key() == st.processes[j].Key();
    assert Holds(st.processes[i].phase) ==> st.locks[s] == i;
    forall t | t in next.locks
      ensures next.locks[t] < |next.processes| && next.processes[next.locks[t]].Key() == t && Holds(next.processes[next.locks[t]].phase)
    {
    }
    forall j | 0 <= j < |next.processes| && Holds(next.processes[j].phase)
      ensures next.processes[j].Key() in next.locks && next.locks[next.processes[j].Key()] == j
    {
    }
  }

  lemma MoverStaysMatching(st: State, i: nat)
    requires Orderly(st) && i < |st.processes| && CanStep(st, i)
    requires ValidDefinition(Next(st, i).processes[i].seed.definition)
    ensures Matching(Next(st, i).processes[i])
  {
    assert Matching(st.processes[i]);
  }

  lemma StaysOrderly(st: State, i: nat, next: State)
    requires Orderly(st) && i < |st.processes| && CanStep(st, i) && next == Next(st, i)
    ensures Orderly(next) && Moves(st, i, next)
  {
    StepMoves(st, i);
    LocksStayHeld(st, i, next);
    forall j | 0 <= j < |next.processes|
      ensures ValidDefinition(next.processes[j].seed.definition) && Matching(next.processes[j])
    {
      assert ValidDefinition(st.processes[j].seed.definition) && Matching(st.processes[j]);
      if j == i { MoverStaysMatching(st, i); }
    }
  }

  lemma StepMover(st: State, next: State) returns (i: nat)
    requires Step(st, next)
    ensures i < |st.processes| && CanStep(st, i) && ValidDefinition(st.processes[i].seed.definition) && next == Next(st, i)
  {
    i :| i < |st.processes| && CanStep(st, i) && next == Next(st, i);
  }

  /** The same processes, wherever they stand. */
  ghost predicate SameProcesses(st: State, other: State) {
    && |st.processes| == |other.processes|
    && forall i :: 0 <= i < |st.processes| ==> st.processes[i].(phase := other.processes[i].phase) == other.processes[i]
  }

  lemma {:induction false} RunStaysOrderly(run: seq<State>, k: nat)
    requires Run(run) && k < |run|
    ensures Orderly(run[k]) && SameProcesses(run[0], run[k])
  {
    if k > 0 {
      RunStaysOrderly(run, k - 1);
      assert Step(run[k - 1], run[k - 1 + 1]);
      var i := StepMover(run[k - 1], run[k]);
      StaysOrderly(run[k - 1], i, run[k]);
    }
  }

  /** From any files whatever, in any interleaving: what a process returns carries its four fields,
      and at most one process at a time is past the lock of a selector. */
  lemma AnyRunMatches(run: seq<State>, k: nat, i: nat)
    requires Run(run) && k < |run| && i < |run[k].processes|
    ensures run[k].processes[i].phase.Done? ==> SelectorOf(run[k].processes[i].phase.record) == run[k].processes[i].Key()
    ensures forall j :: (0 <= j < |run[k].processes| && Holds(run[k].processes[i].phase) && Holds(run[k].processes[j].phase)
      && run[k].processes[i].Key() == run[k].processes[j].Key()) ==> i == j
  {
    RunStaysOrderly(run, k);
    assert Matching(run[k].processes[i]);
  }

  // ---------------------------------------------------------------- every run ends

  function Rank(p: Phase): nat {
    match p
    case ReadPointer(locked) => if locked then 8 else 13
    case ReadRecord(locked, _) => if locked then 7 else 12
    case DropRecord(locked, _) => if locked then 6 else 11
    case DropPointer(locked) => if locked then 5 else 10
    case WaitLock => 9
    case Verifying => 4
    case StoreRecord(_) => 3
    case StorePointer(_) => 2
    case Unlock(_) => 1
    case Done(_) => 0
  }

  function Work(ps: seq<Process>): nat {
    if ps == [] then 0 else Rank(ps[0].phase) + Work(ps[1..])
  }

  lemma {:induction false} LessWork(ps: seq<Process>, i: nat, p: Process)
    requires i < |ps| && Rank(p.phase) < Rank(ps[i].phase)
    ensures Work(ps[i := p]) < Work(ps)
  {
    if i == 0 {
      assert ps[i := p][1..] == ps[1..];
    } else {
      assert ps[i := p][1..] == ps[1..][i - 1 := p];
      LessWork(ps[1..], i - 1, p);
    }
  }

  lemma {:induction false} WorkBound(ps: seq<Process>)
    ensures Work(ps) <= 13 * |ps|
    ensures Work(ps) == 0 ==> forall i :: 0 <= i < |ps| ==> ps[i].phase.Done?
  {
    if ps != [] {
      WorkBound(ps[1..]);
      assert ps == [ps[0]] + ps[1..];
      assert forall i :: 1 <= i < |ps| ==> ps[i] == ps[1..][i - 1];
    }
  }

  lemma MoveShrinks(st: State, i: nat, next: State)
    requires i < |st.processes| && Moves(st, i, next)
    ensures Work(next.processes) < Work(st.processes)
  {
    LessWork(st.processes, i, next.processes[i]);
    assert next.processes == st.processes[i := next.processes[i]];
  }

  lemma {:induction false} WorkShrinks(run: seq<State>, k: nat)
    requires Run(run) && k < |run|
    ensures k + Work(run[k].processes) <= 13 * |run[0].processes|
  {
    if k == 0 {
      WorkBound(run[0].processes);
    } else {
      WorkShrinks(run, k - 1);
      RunStaysOrderly(run, k - 1);
      assert Step(run[k - 1], run[k - 1 + 1]);
      var i := StepMover(run[k - 1], run[k]);
      StaysOrderly(run[k - 1], i, run[k]);
      MoveShrinks(run[k - 1], i, run[k]);
    }
  }

  /** While someone is unfinished, someone can step: a process waits only for one that can move. */
  lemma NoDeadlock(st: State, i: nat) returns (mover: nat)
    requires Orderly(st) && i < |st.processes| && !st.processes[i].phase.Done?
    ensures mover < |st.processes| && CanStep(st, mover)
  {
    mover := if CanStep(st, i) then i else st.locks[st.processes[i].Key()];
  }

  ghost predicate Stuck(st: State) {
    Sound(st) && forall i :: 0 <= i < |st.processes| ==> !CanStep(st, i)
  }

  /** No run is longer than thirteen steps a process, and one that cannot go on has answered everyone. */
  lemma RunsFinish(run: seq<State>)
    requires Run(run)
    ensures |run| <= 13 * |run[0].processes| + 1
    ensures Stuck(run[|run| - 1]) ==> forall p :: p in run[|run| - 1].processes ==> p.phase.Done?
  {
    var last := run[|run| - 1];
    WorkShrinks(run, |run| - 1);
    RunStaysOrderly(run, |run| - 1);
    if Stuck(last) {
      forall i | 0 <= i < |last.processes| ensures last.processes[i].phase.Done? {
        if !last.processes[i].phase.Done? {
          var mover := NoDeadlock(last, i);
        }
      }
    }
  }

  // ---------------------------------------------------------------- pointers that answer: one verification, one answer

  /** Some process can ask for it: processes ask for the current version of the verifier. */
  predicate Askable(s: Selector) {
    s.verifierVersion == VERIFIER_VERSION
  }

  /** The id of whatever a reader can load is the hash of its content. */
  ghost predicate HashedIds(c: Contents) {
    forall id :: id in c.evidence && Loaded(c.evidence, id).Some? ==> OwnId(Loaded(c.evidence, id).value)
  }

  /** Every pointer that some process can ask for leads to a matching record. What else lies about,
      links, unreadable and misfiled files, makes no difference. */
  ghost predicate PointersAnswer(c: Contents) {
    forall s :: s in c.index && Askable(s) ==> Answer(c, s).Some?
  }

  predicate Answered(c: Contents, s: Selector, r: EvidenceRecord) {
    Answer(c, s) == Some(r)
  }

  ghost predicate OnCourse(c: Contents, verified: multiset<Selector>, p: Process)
    requires ValidDefinition(p.seed.definition)
  {
    var s := p.Key();
    match p.phase
    case ReadPointer(_) => true
    case ReadRecord(_, id) => s in c.index && c.index[s] == Good(id)
    case DropRecord(_, _) => false
    case DropPointer(_) => false
    case WaitLock => true
    case Verifying => s !in c.index && s !in verified
    case StoreRecord(r) => s !in c.index
    case StorePointer(r) => s !in c.index && r.evidenceId in c.evidence && c.evidence[r.evidenceId] == Good(r)
    case Unlock(r) => Answered(c, s, r)
    case Done(r) => Answered(c, s, r)
  }

  predicate Storing(p: Phase) {
    p.StoreRecord? || p.StorePointer?
  }

  /** A selector is verified at most once, and then answered or about to be. */
  ghost predicate VerifiedOnce(st: State, s: Selector) {
    && st.verified[s] <= 1
    && (s in st.verified ==> (s in st.contents.index
        || (s in st.locks && st.locks[s] < |st.processes| && Storing(st.processes[st.locks[s]].phase))))
  }

  ghost predicate Tidy(st: State) {
    && Orderly(st) && HashedIds(st.contents) && PointersAnswer(st.contents)
    && (forall i :: 0 <= i < |st.processes| ==> OnCourse(st.contents, st.verified, st.processes[i]))
    && forall s :: VerifiedOnce(st, s)
  }

  /** No pointer, and no record that a reader can load, is lost or changed. */
  ghost predicate Grows(c: Contents, d: Contents) {
    && (forall id :: id in c.evidence && Loaded(c.evidence, id).Some? ==> id in d.evidence && d.evidence[id] == c.evidence[id])
    && (forall s :: s in c.index ==> s in d.index && d.index[s] == c.index[s])
  }

  lemma GrowingKeepsAnswers(c: Contents, d: Contents, s: Selector)
    requires Grows(c, d)
    ensures Answer(c, s).Some? ==> Answer(d, s) == Answer(c, s)
  {
  }

  /** Steps from a tidy state lose nothing. */
  lemma StepGrows(st: State, i: nat)
    requires Tidy(st) && i < |st.processes| && CanStep(st, i)
    ensures Grows(st.contents, Next(st, i).contents)
  {
    var p := st.processes[i];
    assert OnCourse(st.contents, st.verified, p) && Matching(p);
    if p.phase.StoreRecord? {
      var r := p.phase.record;
      if Loaded(st.contents.evidence, r.evidenceId).Some? {
        assert OwnId(r) && OwnId(Loaded(st.contents.evidence, r.evidenceId).value);
      }
    }
  }

  lemma PointersStayAnswering(st: State, i: nat)
    requires Tidy(st) && i < |st.processes| && CanStep(st, i)
    ensures HashedIds(Next(st, i).contents) && PointersAnswer(Next(st, i).contents)
  {
    var p, c, d := st.processes[i], st.contents, Next(st, i).contents;
    assert OnCourse(c, st.verified, p) && Matching(p);
    StepGrows(st, i);
    forall s | s in d.index && Askable(s) ensures Answer(d, s).Some? {
      if s in c.index {
        GrowingKeepsAnswers(c, d, s);
      }
    }
    IdsStayHashed(st, i);
  }

  lemma IdsStayHashed(st: State, i: nat)
    requires Tidy(st) && i < |st.processes| && CanStep(st, i)
    ensures HashedIds(Next(st, i).contents)
  {
    var p, c, d := st.processes[i], st.contents, Next(st, i).contents;
    assert Matching(p);
    forall id | id in d.evidence && Loaded(d.evidence, id).Some? ensures OwnId(Loaded(d.evidence, id).value) {
      assert (p.phase.StoreRecord? && id == p.phase.record.evidenceId) || Loaded(c.evidence, id) == Loaded(d.evidence, id);
    }
  }

  predicate Reading(p: Phase) {
    p.ReadPointer? || p.ReadRecord?
  }

  lemma ReaderStaysOnCourse(st: State, i: nat)
    requires Tidy(st) && i < |st.processes| && CanStep(st, i) && Reading(st.processes[i].phase)
    requires ValidDefinition(Next(st, i).processes[i].seed.definition)
    ensures OnCourse(Next(st, i).contents, Next(st, i).verified, Next(st, i).processes[i])
  {
    var p, c := st.processes[i], st.contents;
    var s := p.Key();
    assert OnCourse(c, st.verified, p);
    assert Holds(p.phase) ==> st.locks[s] == i;
    assert VerifiedOnce(st, s);
    assert s in c.index ==> Answer(c, s).Some?;
  }

  lemma WriterStaysOnCourse(st: State, i: nat)
    requires Tidy(st) && i < |st.processes| && CanStep(st, i) && !Reading(st.processes[i].phase)
    requires ValidDefinition(Next(st, i).processes[i].seed.definition)
    ensures OnCourse(Next(st, i).contents, Next(st, i).verified, Next(st, i).processes[i])
  {
    var p := st.processes[i];
    assert OnCourse(st.contents, st.verified, p) && Matching(p);
  }

  lemma MoverStaysOnCourse(st: State, i: nat)
    requires Tidy(st) && i < |st.processes| && CanStep(st, i)
    requires ValidDefinition(Next(st, i).processes[i].seed.definition)
    ensures OnCourse(Next(st, i).contents, Next(st, i).verified, Next(st, i).processes[i])
  {
    if Reading(st.processes[i].phase) { ReaderStaysOnCourse(st, i); } else { WriterStaysOnCourse(st, i); }
  }

  lemma OthersStayOnCourse(st: State, i: nat, j: nat)
    requires Tidy(st) && i < |st.processes| && CanStep(st, i) && j < |st.processes| && j != i
    requires ValidDefinition(st.processes[j].seed.definition)
    ensures OnCourse(Next(st, i).contents, Next(st, i).verified, st.processes[j])
  {
    var p, q := st.processes[i], st.processes[j];
    assert OnCourse(st.contents, st.verified, p) && Matching(p) && OnCourse(st.contents, st.verified, q);
    StepGrows(st, i);
    StepChangesOwn(st, i);
    assert Holds(p.phase) && Holds(q.phase) ==> p.Key() != q.Key();
    StillOnCourse(st.contents, st.verified, Next(st, i).contents, Next(st, i).verified, q, Holds(p.phase), p.Key());
  }

  /** A step adds to the index and to the log at most its process's own selector, and only under the lock. */
  lemma StepChangesOwn(st: State, i: nat)
    requires Tidy(st) && i < |st.processes| && CanStep(st, i)
    ensures var p, next := st.processes[i], Next(st, i);
      && (forall s :: s in next.contents.index ==> s in st.contents.index || (s == p.Key() && Holds(p.phase)))
      && (forall s :: s in next.verified ==> s in st.verified || (s == p.Key() && Holds(p.phase)))
  {
    assert OnCourse(st.contents, st.verified, st.processes[i]) && Matching(st.processes[i]);
  }

  lemma StillOnCourse(c: Contents, verified: multiset<Selector>, d: Contents, log: multiset<Selector>, q: Process, held: bool, own: Selector)
    requires ValidDefinition(q.seed.definition) && OnCourse(c, verified, q) && Grows(c, d)
    requires forall s :: s in d.index ==> s in c.index || (s == own && held)
    requires forall s :: s in log ==> s in verified || (s == own && held)
    requires held && Holds(q.phase) ==> own != q.Key()
    ensures OnCourse(d, log, q)
  {
    GrowingKeepsAnswers(c, d, q.Key());
  }

  /** What a step adds to the log, and where it leaves a process that stores. */
  lemma StepLogs(st: State, i: nat)
    requires Tidy(st) && i < |st.processes| && CanStep(st, i)
    ensures var p, next := st.processes[i], Next(st, i);
      && next.verified == (if p.phase.Verifying? then st.verified + multiset{p.Key()} else st.verified)
      && (p.phase.Verifying? || p.phase.StoreRecord? ==> Storing(next.processes[i].phase))
      && (p.phase.StorePointer? ==> p.Key() in next.contents.index)
      && (p.phase.Verifying? ==> p.Key() !in st.verified)
  {
    var p := st.processes[i];
    assert OnCourse(st.contents, st.verified, p) && Matching(p);
  }

  lemma StaysVerifiedOnce(st: State, i: nat, next: State, s: Selector)
    requires VerifiedOnce(st, s) && LocksHeld(st) && i < |st.processes| && Moves(st, i, next) && Grows(st.contents, next.contents)
    requires
      var p := st.processes[i];
      && next.verified == (if p.phase.Verifying? then st.verified + multiset{p.Key()} else st.verified)
      && (p.phase.Verifying? || p.phase.StoreRecord? ==> Storing(next.processes[i].phase))
      && (p.phase.StorePointer? ==> p.Key() in next.contents.index)
      && (p.phase.Verifying? ==> p.Key() !in st.verified)
    ensures VerifiedOnce(next, s)
  {
    var p := st.processes[i];
    assert Holds(p.phase) ==> p.Key() in st.locks && st.locks[p.Key()] == i;
    if s != p.Key() && s in st.locks {
      assert s in next.locks && next.locks[s] == st.locks[s] && st.locks[s] != i;
    }
  }

  lemma StaysTidy(st: State, i: nat)
    requires Tidy(st) && i < |st.processes| && CanStep(st, i)
    ensures Tidy(Next(st, i))
  {
    var next := Next(st, i);
    StaysOrderly(st, i, next);
    PointersStayAnswering(st, i);
    forall j | 0 <= j < |next.processes| ensures OnCourse(next.contents, next.verified, next.processes[j]) {
      if j == i { MoverStaysOnCourse(st, i); } else { OthersStayOnCourse(st, i, j); }
    }
    StepGrows(st, i);
    StepLogs(st, i);
    forall s ensures VerifiedOnce(next, s) {
      StaysVerifiedOnce(st, i, next, s);
    }
  }

  lemma {:induction false} RunStaysTidy(run: seq<State>, k: nat)
    requires Run(run) && HashedIds(run[0].contents) && PointersAnswer(run[0].contents) && k < |run|
    ensures Tidy(run[k])
  {
    if k == 0 {
      RunStaysOrderly(run, 0);
    } else {
      RunStaysTidy(run, k - 1);
      assert Step(run[k - 1], run[k - 1 + 1]);
      var i := StepMover(run[k - 1], run[k]);
      StaysTidy(run[k - 1], i);
    }
  }

  /** At every step of every interleaving from files whose pointers answer: each pointer that can be
      asked for still leads to a stored matching record, the verifier has run at most once for a selector, and all answers given for
      it so far are the same record. */
  lemma EveryRunAgrees(run: seq<State>, k: nat, s: Selector)
    requires Run(run) && HashedIds(run[0].contents) && PointersAnswer(run[0].contents) && k < |run|
    ensures s in run[k].contents.index && Askable(s) ==> Answer(run[k].contents, s).Some?
    ensures run[k].verified[s] <= 1
    ensures forall i :: 0 <= i < |run[k].processes| && run[k].processes[i].phase.Done? && run[k].processes[i].Key() == s ==>
      Answer(run[k].contents, s) == Some(run[k].processes[i].phase.record)
  {
    RunStaysTidy(run, k);
    assert VerifiedOnce(run[k], s);
    forall i | 0 <= i < |run[k].processes| && run[k].processes[i].phase.Done? && run[k].processes[i].Key() == s
      ensures Answer(run[k].contents, s) == Some(run[k].processes[i].phase.record)
    {
      assert OnCourse(run[k].contents, run[k].verified, run[k].processes[i]);
    }
  }

  // ---------------------------------------------------------------- damaged but honest files

  ghost predicate HonestProcess(w: World, p: Process) {
    && OfWorld(w, p.db, p.seed, p.snapshotId)
    && (p.phase.Unlock? || p.phase.Done? ==> Genuine(w, p.phase.record))
  }

  ghost predicate HonestState(w: World, st: State) {
    && Orderly(st) && Honest(w, st.contents)
    && forall i :: 0 <= i < |st.processes| ==> HonestProcess(w, st.processes[i])
  }

  lemma FilesStayHonest(w: World, st: State, i: nat)
    requires HonestState(w, st) && i < |st.processes| && CanStep(st, i)
    ensures Honest(w, Next(st, i).contents)
  {
    var p, c, d := st.processes[i], st.contents, Next(st, i).contents;
    assert HonestProcess(w, p) && Matching(p);
    FreshIsGenuine(w, p.db, p.seed, p.snapshotId);
    forall id | id in d.evidence && Loaded(d.evidence, id).Some? ensures Genuine(w, Loaded(d.evidence, id).value) {
      assert (p.phase.StoreRecord? && id == p.phase.record.evidenceId) || Loaded(c.evidence, id) == Loaded(d.evidence, id);
    }
  }

  lemma MoverStaysHonest(w: World, st: State, i: nat)
    requires HonestState(w, st) && i < |st.processes| && CanStep(st, i)
    ensures HonestProcess(w, Next(st, i).processes[i])
  {
    var p := st.processes[i];
    assert HonestProcess(w, p) && Matching(p);
    FreshIsGenuine(w, p.db, p.seed, p.snapshotId);
  }

  lemma {:induction false} RunStaysHonest(w: World, run: seq<State>, k: nat)
    requires Run(run) && HonestState(w, run[0]) && k < |run|
    ensures HonestState(w, run[k])
  {
    if k > 0 {
      RunStaysHonest(w, run, k - 1);
      assert Step(run[k - 1], run[k - 1 + 1]);
      var i := StepMover(run[k - 1], run[k]);
      StaysOrderly(run[k - 1], i, run[k]);
      FilesStayHonest(w, run[k - 1], i);
      MoverStaysHonest(w, run[k - 1], i);
      forall j | 0 <= j < |run[k].processes| ensures HonestProcess(w, run[k].processes[j]) {
        assert j != i ==> run[k].processes[j] == run[k - 1].processes[j] && HonestProcess(w, run[k - 1].processes[j]);
      }
    }
  }

  /** Links, unreadable files and misfiled records may lie about, as long as no readable record
      under its own id was forged: every process still returns what a fresh verification measures. */
  lemma HonestRunsAnswerCurrent(w: World, run: seq<State>, k: nat, i: nat)
    requires Run(run) && HonestState(w, run[0]) && k < |run| && i < |run[k].processes|
    ensures var p := run[k].processes[i]; p.phase.Done? ==> Current(p.db, p.seed, p.snapshotId, p.phase.record)
  {
    RunStaysHonest(w, run, k);
    var p := run[k].processes[i];
    assert HonestProcess(w, p) && Matching(p);
    if p.phase.Done? {
      GenuineIsCurrent(w, p.db, p.seed, p.snapshotId, p.phase.record);
    }
  }

  // ---------------------------------------------------------------- a pointer that does not answer: two verifications

  lemma RunExtends(run: seq<State>, i: nat)
    requires Run(run) && i < |run[|run| - 1].processes| && CanStep(run[|run| - 1], i) && Sound(run[|run| - 1])
    ensures Run(run + [Next(run[|run| - 1], i)])
  {
    var longer := run + [Next(run[|run| - 1], i)];
    forall k | 0 <= k < |longer| - 1 ensures Step(longer[k], longer[k + 1]) {
      if k < |run| - 1 {
        assert Step(run[k], run[k + 1]);
      } else {
        assert Step(run[k], Next(run[k], i));
      }
    }
  }

  lemma Played(run: seq<State>, i: nat, next: State) returns (longer: seq<State>)
    requires Run(run) && i < |run[|run| - 1].processes| && CanStep(run[|run| - 1], i) && Sound(run[|run| - 1])
    requires Next(run[|run| - 1], i) == next
    ensures longer == run + [next] && Run(longer) && longer[|longer| - 1] == next && longer[0] == run[0]
  {
    RunExtends(run, i);
    longer := run + [next];
  }

  function Two(c: Contents, locks: map<Selector, nat>, p: Process, a: Phase, b: Phase, verified: multiset<Selector>): State {
    State(c, locks, [p.(phase := a), p.(phase := b)], verified)
  }

  /** A pointer file is there, and answers nothing. */
  predicate Dead(c: Contents, s: Selector) {
    s in c.index && Answer(c, s).None?
  }

  /** What the first of two processes leaves behind on its way to removing a dead pointer. */
  function Cleared(c: Contents, s: Selector): Contents {
    var id := Pointed(c.index, s);
    if id.Some? && id.value in c.evidence && Loaded(c.evidence, id.value).None? then c.(evidence := c.evidence - {id.value}) else c
  }

  lemma FirstReadsDead(before: seq<State>, c: Contents, p: Process) returns (run: seq<State>)
    requires ValidDefinition(p.seed.definition) && Dead(c, p.Key())
    requires Run(before) && before[|before| - 1] == Two(c, map[], p, ReadPointer(false), ReadPointer(false), multiset{})
    ensures Run(run) && run[0] == before[0]
    ensures run[|run| - 1] == Two(Cleared(c, p.Key()), map[], p, DropPointer(false), ReadPointer(false), multiset{})
  {
    var s := p.Key();
    run := Played(before, 0, Two(c, map[], p, AfterPointer(c, s, false), ReadPointer(false), multiset{}));
    if c.index[s].Good? {
      var id := c.index[s].value;
      run := Played(run, 0, Two(c, map[], p, AfterRecord(c, s, false, id), ReadPointer(false), multiset{}));
      if id in c.evidence && Loaded(c.evidence, id).None? {
        run := Played(run, 0, Two(Cleared(c, s), map[], p, DropPointer(false), ReadPointer(false), multiset{}));
      }
    }
  }

  lemma SecondReadsDead(before: seq<State>, c: Contents, p: Process) returns (run: seq<State>)
    requires ValidDefinition(p.seed.definition) && Dead(c, p.Key())
    requires Run(before) && before[|before| - 1] == Two(c, map[], p, DropPointer(false), ReadPointer(false), multiset{})
    ensures Run(run) && run[0] == before[0]
    ensures run[|run| - 1] == Two(Cleared(c, p.Key()), map[], p, DropPointer(false), DropPointer(false), multiset{})
  {
    var s := p.Key();
    run := Played(before, 1, Two(c, map[], p, DropPointer(false), AfterPointer(c, s, false), multiset{}));
    if c.index[s].Good? {
      var id := c.index[s].value;
      run := Played(run, 1, Two(c, map[], p, DropPointer(false), AfterRecord(c, s, false, id), multiset{}));
      if id in c.evidence && Loaded(c.evidence, id).None? {
        run := Played(run, 1, Two(Cleared(c, s), map[], p, DropPointer(false), DropPointer(false), multiset{}));
      }
    }
  }

  function Unpointed(c: Contents, s: Selector): Contents {
    c.(index := c.index - {s})
  }

  function Filed(c: Contents, r: EvidenceRecord): Contents {
    c.(evidence := c.evidence[r.evidenceId := Good(r)])
  }

  /** Both processes read the dead pointer; the second one removes it and takes the lock. */
  lemma SecondTakesLock(before: seq<State>, c: Contents, p: Process) returns (run: seq<State>)
    requires ValidDefinition(p.seed.definition)
    requires Run(before) && before[|before| - 1] == Two(c, map[], p, DropPointer(false), DropPointer(false), multiset{})
    ensures Run(run) && run[0] == before[0]
    ensures run[|run| - 1] == Two(Unpointed(c, p.Key()), map[p.Key() := 1], p, DropPointer(false), Verifying, multiset{})
  {
    var b, held := Unpointed(c, p.Key()), map[p.Key() := 1];
    run := Played(before, 1, Two(b, map[], p, DropPointer(false), WaitLock, multiset{}));
    run := Played(run, 1, Two(b, held, p, DropPointer(false), ReadPointer(true), multiset{}));
    run := Played(run, 1, Two(b, held, p, DropPointer(false), Verifying, multiset{}));
  }

  lemma SecondMeasures(before: seq<State>, b: Contents, p: Process, r: EvidenceRecord) returns (run: seq<State>)
    requires ValidDefinition(p.seed.definition) && r == Verify(p.db, p.seed, p.snapshotId)
    requires Run(before) && before[|before| - 1] == Two(b, map[p.Key() := 1], p, DropPointer(false), Verifying, multiset{})
    ensures Run(run) && run[0] == before[0]
    ensures run[|run| - 1] == Two(b, map[p.Key() := 1], p, DropPointer(false), StoreRecord(r), multiset{p.Key()})
  {
    VerifyingSteps(b, p, r);
    assert before[|before| - 1] == Two(b, map[p.Key() := 1], p, DropPointer(false), Verifying, multiset{});
    run := Played(before, 1, Two(b, map[p.Key() := 1], p, DropPointer(false), StoreRecord(r), multiset{p.Key()}));
  }

  /** The second process verifies, stores its record and its pointer. */
  lemma SecondVerifies(before: seq<State>, b: Contents, p: Process, r: EvidenceRecord) returns (run: seq<State>)
    requires ValidDefinition(p.seed.definition) && r == Verify(p.db, p.seed, p.snapshotId)
    requires Run(before) && before[|before| - 1] == Two(b, map[p.Key() := 1], p, DropPointer(false), Verifying, multiset{})
    ensures Run(run) && run[0] == before[0]
    ensures run[|run| - 1] == Two(Filed(b, r), map[p.Key() := 1], p, DropPointer(false), StorePointer(r), multiset{p.Key()})
  {
    run := SecondMeasures(before, b, p, r);
    run := SecondFiles(run, b, p, r);
  }

  lemma MeasureStep(st: State, i: nat)
    requires i < |st.processes| && st.processes[i].phase == Verifying && ValidDefinition(st.processes[i].seed.definition)
    ensures var p := st.processes[i];
      CanStep(st, i) && Next(st, i) == Moved(st.(verified := st.verified + multiset{p.Key()}), i, StoreRecord(Verify(p.db, p.seed, p.snapshotId)))
  {
  }

  lemma OneMeasured(s: Selector)
    ensures multiset{} + multiset{s} == multiset{s}
  {
  }

  lemma VerifyingSteps(b: Contents, p: Process, r: EvidenceRecord)
    requires ValidDefinition(p.seed.definition) && r == Verify(p.db, p.seed, p.snapshotId)
    ensures var held := map[p.Key() := 1];
      && CanStep(Two(b, held, p, DropPointer(false), Verifying, multiset{}), 1)
      && Sound(Two(b, held, p, DropPointer(false), Verifying, multiset{}))
      && Next(Two(b, held, p, DropPointer(false), Verifying, multiset{}), 1) == Two(b, held, p, DropPointer(false), StoreRecord(r), multiset{p.Key()})
  {
    var now := Two(b, map[p.Key() := 1], p, DropPointer(false), Verifying, multiset{});
    MeasureStep(now, 1);
    OneMeasured(p.Key());
    assert now.processes[1 := now.processes[1].(phase := StoreRecord(r))] == [p.(phase := DropPointer(false)), p.(phase := StoreRecord(r))];
  }

  lemma SecondFiles(before: seq<State>, b: Contents, p: Process, r: EvidenceRecord) returns (run: seq<State>)
    requires ValidDefinition(p.seed.definition)
    requires Run(before) && before[|before| - 1] == Two(b, map[p.Key() := 1], p, DropPointer(false), StoreRecord(r), multiset{p.Key()})
    ensures Run(run) && run[0] == before[0]
    ensures run[|run| - 1] == Two(Filed(b, r), map[p.Key() := 1], p, DropPointer(false), StorePointer(r), multiset{p.Key()})
  {
    run := Played(before, 1, Two(Filed(b, r), map[p.Key() := 1], p, DropPointer(false), StorePointer(r), multiset{p.Key()}));
  }

  /** The second process stores its pointer. */
  lemma SecondStoresPointer(before: seq<State>, f: Contents, p: Process, r: EvidenceRecord) returns (run: seq<State>)
    requires ValidDefinition(p.seed.definition) && SelectorOf(r) == p.Key()
    requires Run(before) && before[|before| - 1] == Two(f, map[p.Key() := 1], p, DropPointer(false), StorePointer(r), multiset{p.Key()})
    ensures Run(run) && run[0] == before[0]
    ensures run[|run| - 1] ==
      Two(f.(index := f.index[p.Key() := Good(r.evidenceId)]), map[p.Key() := 1], p, DropPointer(false), Unlock(r), multiset{p.Key()})
  {
    run := Played(before, 1, Two(f.(index := f.index[p.Key() := Good(r.evidenceId)]), map[p.Key() := 1], p, DropPointer(false), Unlock(r), multiset{p.Key()}));
  }

  /** The first process, still about to remove what it read, removes the fresh pointer. */
  lemma FirstUnlinksFreshPointer(before: seq<State>, f: Contents, p: Process, r: EvidenceRecord) returns (run: seq<State>)
    requires ValidDefinition(p.seed.definition) && SelectorOf(r) == p.Key() && p.Key() !in f.index
    requires Run(before) && before[|before| - 1] == Two(f, map[p.Key() := 1], p, DropPointer(false), StorePointer(r), multiset{p.Key()})
    ensures Run(run) && run[0] == before[0]
    ensures run[|run| - 1] == Two(f, map[], p, WaitLock, Done(r), multiset{p.Key()})
  {
    var held := map[p.Key() := 1];
    run := SecondStoresPointer(before, f, p, r);
    assert f.index[p.Key() := Good(r.evidenceId)] - {p.Key()} == f.index;
    run := Played(run, 0, Two(f, held, p, WaitLock, Unlock(r), multiset{p.Key()}));
    assert held - {p.Key()} == map[];
    run := Played(run, 1, Two(f, map[], p, WaitLock, Done(r), multiset{p.Key()}));
  }

  lemma FirstVerifiesToo(before: seq<State>, f: Contents, p: Process, r: EvidenceRecord) returns (run: seq<State>)
    requires ValidDefinition(p.seed.definition) && p.Key() !in f.index
    requires Run(before) && before[|before| - 1] == Two(f, map[], p, WaitLock, Done(r), multiset{p.Key()})
    ensures Run(run) && run[0] == before[0] && run[|run| - 1].verified == multiset{p.Key(), p.Key()}
  {
    run := Played(before, 0, Two(f, map[p.Key() := 0], p, ReadPointer(true), Done(r), multiset{p.Key()}));
    run := Played(run, 0, Two(f, map[p.Key() := 0], p, Verifying, Done(r), multiset{p.Key()}));
    var next := Next(run[|run| - 1], 0);
    run := Played(run, 0, next);
  }

  /** One dead pointer is enough for two verifications, whatever else the files hold: a process that
      read it unlinks the fresh pointer another process has put there meanwhile. */
  lemma StaleUnlinkVerifiesTwice(c: Contents, p: Process) returns (run: seq<State>)
    requires ValidDefinition(p.seed.definition) && Dead(c, p.Key())
    ensures Run(run) && |run[0].processes| == 2 && run[0].contents == c
    ensures run[|run| - 1].verified[p.Key()] == 2
  {
    var c2: Contents;
    run, c2 := BothReadDead(c, p);
    run := SecondTakesLock(run, c2, p);
    run := BothVerify(run, Unpointed(c2, p.Key()), p);
  }

  /** Both processes come to remove the pointer, with the record file, if unusable, already gone. */
  lemma BothReadDead(c: Contents, p: Process) returns (run: seq<State>, cleared: Contents)
    requires ValidDefinition(p.seed.definition) && Dead(c, p.Key())
    ensures Run(run) && |run[0].processes| == 2 && run[0].contents == c
    ensures run[|run| - 1] == Two(cleared, map[], p, DropPointer(false), DropPointer(false), multiset{})
  {
    run := [Two(c, map[], p, ReadPointer(false), ReadPointer(false), multiset{})];
    run := FirstReadsDead(run, c, p);
    run := SecondReadsDead(run, Cleared(c, p.Key()), p);
    cleared := Cleared(Cleared(c, p.Key()), p.Key());
  }

  lemma BothVerify(before: seq<State>, b: Contents, p: Process) returns (run: seq<State>)
    requires ValidDefinition(p.seed.definition) && p.Key() !in b.index
    requires Run(before) && before[|before| - 1] == Two(b, map[p.Key() := 1], p, DropPointer(false), Verifying, multiset{})
    ensures Run(run) && run[0] == before[0] && run[|run| - 1].verified == multiset{p.Key(), p.Key()}
  {
    var r := Verify(p.db, p.seed, p.snapshotId);
    run := SecondVerifies(before, b, p, r);
    run := FirstUnlinksFreshPointer(run, Filed(b, r), p, r);
    run := FirstVerifiesToo(run, Filed(b, r), p, r);
  }

  // ---------------------------------------------------------------- exactly when the verifier runs once

  ghost predicate AtMostOnce(run: seq<State>) {
    forall k, s :: 0 <= k < |run| ==> run[k].verified[s] <= 1
  }

  /** A process that asks for this selector. */
  lemma SomeoneAsks(s: Selector) returns (p: Process)
    requires Askable(s)
    ensures ValidDefinition(p.seed.definition) && p.Key() == s
  {
    var key := Endpoint("entity", ["column"]);
    p := Process(map[], Seed(Definition(s.relationshipId, "source", key, key), s.provenance, ManyToOne), s.snapshotId, ReadPointer(false));
  }

  /** In every run of every set of processes each selector is verified at most once exactly when, at
      the start, every pointer that some process can ask for answers. */
  lemma VerifiedOnceExactly(c: Contents)
    requires HashedIds(c)
    ensures (forall run: seq<State> :: Run(run) && run[0].contents == c ==> AtMostOnce(run)) <==> PointersAnswer(c)
  {
    if PointersAnswer(c) {
      forall run: seq<State> | Run(run) && run[0].contents == c ensures AtMostOnce(run) {
        forall k, s | 0 <= k < |run| ensures run[k].verified[s] <= 1 {
          EveryRunAgrees(run, k, s);
        }
      }
    } else {
      var s :| s in c.index && Askable(s) && Answer(c, s).None?;
      var p := SomeoneAsks(s);
      var run := StaleUnlinkVerifiesTwice(c, p);
      assert !AtMostOnce(run);
    }
  }
}
