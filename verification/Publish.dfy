/** Publishing a generated-evidence directory by renames, with every primitive allowed to fail. */
module Publish {
  type Files = map<string, string>

  datatype Slot = Absent | Tree(files: Files)
  datatype Place = Generated | Temporary | Backup
  datatype Slots = Slots(generated: Slot, temporary: Slot, backup: Slot)

  /** `Late` is an error raised after the effect, as by a failing sync of the directory. */
  datatype Outcome = Done | Early | Late

  /** A failing removal may have removed all files but some, or all of them. */
  datatype Removal = Removed | Partway(left: set<string>) | RemovedLate

  /** What happens to each primitive, should the run reach it. */
  datatype Faults = Faults(
    prepared: bool,
    create: Outcome,
    writes: seq<Outcome>,
    clear: Removal,
    first: Outcome,
    second: Outcome,
    discard: Removal,
    restore: Outcome,
    cleanup: Removal)

  function Get(s: Slots, p: Place): Slot {
    match p
    case Generated => s.generated
    case Temporary => s.temporary
    case Backup => s.backup
  }

  function Put(s: Slots, p: Place, slot: Slot): Slots {
    match p
    case Generated => s.(generated := slot)
    case Temporary => s.(temporary := slot)
    case Backup => s.(backup := slot)
  }

  /** The files written so far; a later one of the same name replaces an earlier one. */
  function Written(files: seq<(string, string)>): Files {
    if files == [] then map[] else Written(files[..|files| - 1])[files[|files| - 1].0 := files[|files| - 1].1]
  }

  /** `i` is the last place where a file of this name is written. */
  ghost predicate LastWrite(files: seq<(string, string)>, name: string, i: nat) {
    i < |files| && files[i].0 == name && forall j :: i < j < |files| ==> files[j].0 != name
  }

  /** The tree holds exactly the names written, each with what was written last under it. */
  lemma {:induction false} WrittenExactly(files: seq<(string, string)>, name: string)
    ensures name in Written(files) <==> exists i: nat :: LastWrite(files, name, i)
    ensures forall i: nat :: LastWrite(files, name, i) ==> name in Written(files) && Written(files)[name] == files[i].1
  {
    if files != [] {
      var n := |files| - 1;
      WrittenExactly(files[..n], name);
      if files[n].0 == name {
        assert LastWrite(files, name, n);
      } else {
        forall i: nat ensures LastWrite(files, name, i) <==> LastWrite(files[..n], name, i) {
          OneMoreWrite(files, name, i);
        }
      }
    }
  }

  lemma OneMoreWrite(files: seq<(string, string)>, name: string, i: nat)
    requires files != [] && files[|files| - 1].0 != name
    ensures LastWrite(files, name, i) <==> LastWrite(files[..|files| - 1], name, i)
  {
    var n := |files| - 1;
    if LastWrite(files[..n], name, i) {
      forall j | i < j < |files| ensures files[j].0 != name {
        if j < n { assert files[..n][j].0 != name; }
      }
    }
  }

  function Remains(slot: Slot, left: set<string>): Slot {
    if slot.Tree? then Tree(map name | name in slot.files && name in left :: slot.files[name]) else Absent
  }

  /** A complete tree, old or new, is where a reader or a later run can find it. */
  predicate KeepsComplete(s: Slots, before: Slot, after: Slot) {
    s.generated == before || s.generated == after || s.backup == before || s.backup == after
  }

  ghost predicate AllKeepComplete(seen: seq<Slots>, before: Slot, after: Slot) {
    forall k :: 0 <= k < |seen| ==> KeepsComplete(seen[k], before, after)
  }

  ghost predicate AllDone(outcomes: seq<Outcome>) {
    forall i :: 0 <= i < |outcomes| ==> outcomes[i] == Done
  }

  /** The new tree is complete beside the old one. */
  ghost predicate Fills(s: Slots, f: Faults) {
    f.prepared && f.create == Done && s.temporary.Absent? && AllDone(f.writes)
  }

  /** Nothing fails before the first rename. */
  ghost predicate Readies(s: Slots, f: Faults) {
    Fills(s, f) && (s.backup.Tree? ==> f.clear == Removed)
  }

  function AfterRemoval(slot: Slot, outcome: Removal): Slot {
    if outcome.Partway? then Remains(slot, outcome.left) else Absent
  }

  /** With nothing but a backup at the start, an attempt that fails after filling the new tree: the
      backup was damaged or removed, and the new tree does not stand in for it. */
  ghost predicate LosesBackup(s: Slots, f: Faults, after: Slot) {
    && Fills(s, f) && AfterRemoval(s.backup, f.clear) != s.backup
    && !(f.clear == Removed && f.second == Late && after == s.backup)
  }

  ghost predicate Succeeds(s: Slots, f: Faults) {
    && Readies(s, f) && f.second == Done
    && (s.generated.Tree? ==> f.first == Done && f.discard == Removed)
  }

  /** The first rename took effect but raised, so that no restore follows; or the second rename
      and the restore both failed. */
  ghost predicate LeavesGap(s: Slots, f: Faults) {
    Readies(s, f) && (f.first == Late || (f.first == Done && f.second == Early && f.restore == Early))
  }

  class Workspace {
    var slots: Slots
    ghost var seen: seq<Slots>

    constructor (s: Slots)
      ensures slots == s && seen == [s]
    {
      slots, seen := s, [s];
    }

    method CreateDirectory(p: Place, outcome: Outcome) returns (ok: bool)
      modifies this
      ensures ok <==> old(Get(slots, p)).Absent? && outcome == Done
      ensures slots == if old(Get(slots, p)).Absent? && outcome != Early then Put(old(slots), p, Tree(map[])) else old(slots)
      ensures seen == old(seen) + [slots]
    {
      ok := Get(slots, p).Absent? && outcome == Done;
      if Get(slots, p).Absent? && outcome != Early {
        slots := Put(slots, p, Tree(map[]));
      }
      seen := seen + [slots];
    }

    method WriteFile(p: Place, name: string, body: string, outcome: Outcome) returns (ok: bool)
      modifies this
      ensures ok <==> old(Get(slots, p)).Tree? && outcome == Done
      ensures slots ==
        if old(Get(slots, p)).Tree? && outcome != Early then Put(old(slots), p, Tree(old(Get(slots, p)).files[name := body]))
        else old(slots)
      ensures seen == old(seen) + [slots]
    {
      var slot := Get(slots, p);
      ok := slot.Tree? && outcome == Done;
      if slot.Tree? && outcome != Early {
        slots := Put(slots, p, Tree(slot.files[name := body]));
      }
      seen := seen + [slots];
    }

    method RemoveTree(p: Place, outcome: Removal) returns (ok: bool)
      modifies this
      ensures ok <==> old(Get(slots, p)).Tree? && outcome == Removed
      ensures slots == Put(old(slots), p, AfterRemoval(old(Get(slots, p)), outcome))
      ensures seen == old(seen) + [slots]
    {
      var slot := Get(slots, p);
      ok := slot.Tree? && outcome == Removed;
      slots := Put(slots, p, AfterRemoval(slot, outcome));
      seen := seen + [slots];
    }

    /** A rename onto a directory that still holds files fails without effect. */
    method Rename(from: Place, to: Place, outcome: Outcome) returns (ok: bool)
      requires from != to
      modifies this
      ensures
        var source, target := old(Get(slots, from)), old(Get(slots, to));
        var possible := source.Tree? && (target.Absent? || target.files == map[]);
        && (ok <==> possible && outcome == Done)
        && slots == if possible && outcome != Early then Put(Put(old(slots), to, source), from, Absent) else old(slots)
      ensures seen == old(seen) + [slots]
    {
      var source, target := Get(slots, from), Get(slots, to);
      var possible := source.Tree? && (target.Absent? || target.files == map[]);
      ok := possible && outcome == Done;
      if possible && outcome != Early {
        slots := Put(Put(slots, to, source), from, Absent);
      }
      seen := seen + [slots];
    }

    /** Writing the new tree beside the old one touches nothing else. */
    method FillTemporary(files: seq<(string, string)>, f: Faults) returns (ok: bool)
      requires |f.writes| == |files|
      modifies this
      ensures slots.generated == old(slots.generated) && slots.backup == old(slots.backup)
      ensures |seen| >= |old(seen)| && seen[..|old(seen)|] == old(seen)
      ensures forall k :: |old(seen)| <= k < |seen| ==>
        seen[k].generated == old(slots.generated) && seen[k].backup == old(slots.backup)
      ensures ok <==> f.prepared && f.create == Done && old(slots.temporary).Absent? && AllDone(f.writes)
      ensures ok ==> slots.temporary == Tree(Written(files))
    {
      if !f.prepared {
        return false;
      }
      ok := CreateDirectory(Temporary, f.create);
      if !ok {
        return;
      }
      for i := 0 to |files|
        invariant slots == old(slots).(temporary := Tree(Written(files[..i])))
        invariant |seen| > |old(seen)| && seen[..|old(seen)|] == old(seen)
        invariant forall k :: |old(seen)| <= k < |seen| ==>
          seen[k].generated == old(slots.generated) && seen[k].backup == old(slots.backup)
        invariant forall j :: 0 <= j < i ==> f.writes[j] == Done
      {
        assert files[..i + 1][..i] == files[..i];
        ok := WriteFile(Temporary, files[i].0, files[i].1, f.writes[i]);
        if !ok {
          return;
        }
      }
      assert files[..|files|] == files;
      ok := true;
    }

    /** The old tree moves to the backup place, the new one takes its place, the backup goes. */
    method Swap(f: Faults, ghost after: Slot) returns (ok: bool, replacedPrevious: bool)
      requires slots.temporary == after && after.Tree?
      modifies this
      ensures |seen| >= |old(seen)| && seen[..|old(seen)|] == old(seen)
      ensures old(slots.generated).Tree? ==> AllKeepComplete(seen[|old(seen)|..], old(slots.generated), after)
      ensures
        var s := old(slots);
        var cleared := s.backup.Tree? ==> f.clear == Removed;
        var moved := s.generated.Tree? ==> f.first == Done;
        && replacedPrevious == (cleared && s.generated.Tree? && f.first == Done)
        && ok == (cleared && moved && f.second == Done && (s.generated.Tree? ==> f.discard == Removed))
        && (!cleared ==> slots.generated == s.generated && slots.backup == AfterRemoval(s.backup, f.clear))
        && (cleared && !moved ==> if f.first == Late then slots == Slots(Absent, after, s.generated) else slots.generated == s.generated)
        && (cleared && moved && f.second == Early ==> slots == Slots(Absent, after, s.generated))
        && (cleared && moved && f.second != Early ==> slots.generated == after && slots.temporary == Absent)
        && (ok || (cleared && s.generated.Absent?) ==> slots.backup == Absent)
    {
      ok, replacedPrevious := false, false;
      if slots.backup.Tree? {
        var cleared := RemoveTree(Backup, f.clear);
        if !cleared {
          return;
        }
      }
      if slots.generated.Tree? {
        var moved := Rename(Generated, Backup, f.first);
        if !moved {
          return;
        }
        replacedPrevious := true;
      }
      var placed := Rename(Temporary, Generated, f.second);
      if !placed {
        return;
      }
      if replacedPrevious {
        var discarded := RemoveTree(Backup, f.discard);
        if !discarded {
          return;
        }
      }
      ok := true;
    }

    /** Publishing. If evidence was there before, then at every step a complete tree, old or new,
        stands in its place or in the backup's. Success puts exactly the new tree there. An error
        leaves the old tree, the new tree, or in exactly one family of faults nothing, and then
        the old tree is still complete in the backup's place. If only the backup was there before, an
        error leaves it in no place exactly when the attempt came to remove it and harmed it. */
    method WriteGenerated(files: seq<(string, string)>, f: Faults) returns (published: bool)
      requires |f.writes| == |files|
      modifies this
      ensures |seen| >= |old(seen)| && seen[..|old(seen)|] == old(seen)
      ensures old(slots.generated).Tree? ==> AllKeepComplete(seen[|old(seen)|..], old(slots.generated), Tree(Written(files)))
      ensures published <==> Succeeds(old(slots), f)
      ensures published ==> slots == Slots(Tree(Written(files)), Absent, Absent)
      ensures slots.generated in {old(slots.generated), Tree(Written(files)), Absent}
      ensures old(slots.generated).Tree? ==> (slots.generated == Absent <==> LeavesGap(old(slots), f))
      ensures old(slots.generated).Tree? && slots.generated == Absent ==> slots.backup == old(slots.generated)
      ensures old(slots.generated).Absent? && Readies(old(slots), f) ==>
        slots.backup == Absent && slots.generated == if f.second == Early then Absent else Tree(Written(files))
      ensures !published && old(slots.generated).Absent? && old(slots.backup).Tree? ==>
        (slots.generated != old(slots.backup) && slots.backup != old(slots.backup) <==> LosesBackup(old(slots), f, Tree(Written(files))))
      ensures old(slots.generated).Absent? && !Readies(old(slots), f) ==>
        slots.generated == Absent && slots.backup == if Fills(old(slots), f) then AfterRemoval(old(slots.backup), f.clear) else old(slots.backup)
      ensures f.cleanup == Removed ==> slots.temporary == Absent
    {
      ghost var after := Tree(Written(files));
      var ok := FillTemporary(files, f);
      var replacedPrevious := false;
      if ok {
        ok, replacedPrevious := Swap(f, after);
      }
      if !ok && replacedPrevious && slots.backup.Tree? && slots.generated.Absent? {
        var restored := Rename(Backup, Generated, f.restore);
      }
      if slots.temporary.Tree? {
        var cleaned := RemoveTree(Temporary, f.cleanup);
      }
      published := ok;
    }

    /** Each attempt draws a temporary name that nothing uses yet. */
    method DrawTemporary()
      modifies this`slots
      ensures slots == old(slots).(temporary := Absent)
    {
      slots := slots.(temporary := Absent);
    }
  }

  /** Two attempts, the second after the first failed. What was complete after the first, the old tree
      or the new one, is in no place after the second, and the second's own tree is not in place,
      exactly when the first left a gap and the second, having filled its tree, removed or damaged the
      backup and did not move its own tree into place. */
  method TwoFailures(before: Files, stale: Slot, files: seq<(string, string)>, f: Faults, more: seq<(string, string)>, g: Faults)
    returns (w: Workspace, first: bool, second: bool, ghost kept: Slot)
    requires |f.writes| == |files| && |g.writes| == |more|
    ensures fresh(w) && first == Succeeds(Slots(Tree(before), Absent, stale), f)
    ensures kept == Tree(before) || kept == Tree(Written(files))
    ensures LeavesGap(Slots(Tree(before), Absent, stale), f) ==> !first && kept == Tree(before)
    ensures !second ==>
      (w.slots.generated != kept && w.slots.backup != kept && w.slots.generated != Tree(Written(more)) <==>
       && LeavesGap(Slots(Tree(before), Absent, stale), f)
       && Fills(Slots(Absent, Absent, kept), g) && AfterRemoval(kept, g.clear) != kept && (g.clear == Removed ==> g.second == Early))
  {
    w := new Workspace(Slots(Tree(before), Absent, stale));
    first := w.WriteGenerated(files, f);
    kept := if w.slots.generated == Absent then w.slots.backup else w.slots.generated;
    w.DrawTemporary();
    second := w.WriteGenerated(more, g);
  }

  /** Such a pair: the rename that moves the old tree away reports an error after its effect; the next
      attempt removes the backup and cannot move its own tree. No evidence is left. */
  method TwoFailuresLoseEvidence(before: Files, files: seq<(string, string)>) returns (w: Workspace)
    ensures fresh(w) && w.slots == Slots(Absent, Absent, Absent)
    ensures |w.seen| > 0 && w.seen[0] == Slots(Tree(before), Absent, Absent)
  {
    w := new Workspace(Slots(Tree(before), Absent, Absent));
    var writes := seq(|files|, _ => Done);
    var late := Faults(true, Done, writes, Removed, Late, Done, Removed, Done, Removed);
    var first := w.WriteGenerated(files, late);
    assert LeavesGap(Slots(Tree(before), Absent, Absent), late);
    w.DrawTemporary();
    var early := Faults(true, Done, writes, Removed, Done, Early, Removed, Done, Removed);
    var second := w.WriteGenerated(files, early);
  }
}
