/**
  The host-side payload (unoq_ota/host.py): a directory tree swapped next to the MCU flash.

  The four sibling directories the module renames are slots; the tree in a slot is a finite map from
  relative paths to entries.  A rename moves a whole slot at once, while removal and extraction touch
  one entry after another, so `history` records every state that a power cut could leave behind.
 */
module Host {
  import opened Wrappers

  type Path = seq<string>

  datatype Entry = File(data: Bytes) | Directory | Link(target: Path)

  type Tree = map<Path, Entry>

  datatype Slot = Live | Previous | Next | Failed

  datatype Dirs = Dirs(live: Option<Tree>, previous: Option<Tree>, next: Option<Tree>, failed: Option<Tree>)

  function At(d: Dirs, slot: Slot): Option<Tree> {
    match slot
    case Live => d.live
    case Previous => d.previous
    case Next => d.next
    case Failed => d.failed
  }

  function With(d: Dirs, slot: Slot, t: Option<Tree>): Dirs {
    match slot
    case Live => d.(live := t)
    case Previous => d.(previous := t)
    case Next => d.(next := t)
    case Failed => d.(failed := t)
  }

  const EMPTY_DIRECTORY: Tree := map[[] := Directory]

  /** What a file system guarantees: there is a root, and every other entry sits in a directory. */
  ghost predicate WellFormed(t: Tree) {
    && [] in t && !t[[]].Link?
    && forall p :: p in t && |p| > 0 ==> p[..|p| - 1] in t && t[p[..|p| - 1]] == Directory
  }

  ghost predicate Sound(t: Option<Tree>) {
    t.Some? ==> WellFormed(t.value)
  }

  ghost predicate AllSound(d: Dirs) {
    Sound(d.live) && Sound(d.previous) && Sound(d.next) && Sound(d.failed)
  }

  function Under(t: Tree, path: Path): set<Path> {
    set p | p in t && path <= p
  }

  function Children(t: Tree, path: Path): set<string> {
    set p | p in t && |p| == |path| + 1 && path <= p :: p[|path|]
  }

  lemma {:induction false} AncestorsPresent(t: Tree, p: Path, k: nat)
    requires WellFormed(t) && p in t && k <= |p|
    ensures p[..k] in t
    decreases |p|
  {
    if k == |p| {
      assert p[..k] == p;
    } else {
      var parent := p[..|p| - 1];
      AncestorsPresent(t, parent, k);
      assert parent[..k] == p[..k];
    }
  }

  /** Below a path there is always a child on the way down, and only a directory has anything below it. */
  lemma ChildOnTheWay(t: Tree, path: Path, p: Path)
    requires WellFormed(t) && p in t && path <= p && path != p
    ensures p[|path|] in Children(t, path)
    ensures path in t && t[path] == Directory
  {
    AncestorsPresent(t, p, |path| + 1);
    var child := p[..|path| + 1];
    assert child[|path|] == p[|path|] && child[..|child| - 1] == path;
  }

  lemma ChildlessIsAlone(t: Tree, path: Path)
    requires WellFormed(t) && path in t
    requires t[path] == Directory ==> Children(t, path) == {}
    ensures Under(t, path) == {path}
  {
    forall p | p in t && path <= p && path != p
      ensures false
    {
      ChildOnTheWay(t, path, p);
    }
  }

  lemma LeafRemovalKeepsWellFormed(t: Tree, path: Path)
    requires WellFormed(t) && path in t && path != [] && Under(t, path) == {path}
    ensures WellFormed(t - {path})
  {
    forall p | p in t && p != path && |p| > 0
      ensures p[..|p| - 1] != path
    {
      assert path <= p ==> p in Under(t, path);
    }
  }

  lemma ChildPresent(t: Tree, path: Path, n: string)
    requires n in Children(t, path)
    ensures path + [n] in t
  {
    var p :| p in t && |p| == |path| + 1 && path <= p && p[|path|] == n;
    assert p == path + [n];
  }

  lemma OtherChildrenRemain(t: Tree, path: Path, n: string)
    ensures Children(t - Under(t, path + [n]), path) == Children(t, path) - {n}
  {
    var u := t - Under(t, path + [n]);
    forall m | m in Children(t, path) && m != n
      ensures m in Children(u, path)
    {
      ChildPresent(t, path, m);
      var q := path + [m];
      assert q[|path|] == m;
      assert (path + [n])[|path|] == n;
      assert q in u;
    }
    if n in Children(u, path) {
      ChildPresent(u, path, n);
      assert false;
    }
  }

  // ---------------------------------------------------------------------------------------------
  // Answers of the operating system

  datatype Extraction = Completes | FailsCleanly | FailsOtherwise

  /** Every answer the operating system and the tar reader may give during one call. */
  datatype Io = Io(stuck: (Slot, Path) -> bool, mkdirFails: bool, renameFails: Slot -> bool,
                   partials: seq<Tree>, extraction: Extraction)

  ghost predicate Sane(io: Io) {
    forall i :: 0 <= i < |io.partials| ==> WellFormed(io.partials[i])
  }

  /** The staged payload file: absent, or a tarball whose members unpack to `payload` (None: refused or corrupt). */
  datatype Archive = NotAFile | Archive(payload: Option<Tree>)

  ghost predicate SoundArchive(archive: Archive) {
    archive.Archive? ==> Sound(archive.payload)
  }

  // ---------------------------------------------------------------------------------------------
  // Removing a subtree

  /** `u` is `t` with some entries below `path` gone; nothing outside that subtree differs. */
  ghost predicate Pruned(t: Tree, u: Tree, path: Path) {
    && (forall p :: p in u ==> p in t && u[p] == t[p])
    && (forall p :: p in t && !(path <= p) ==> p in u)
  }

  /** Nothing below `path` makes `unlink` or `rmdir` raise. */
  ghost predicate Removable(t: Tree, slot: Slot, path: Path, io: Io) {
    forall p :: p in t && path <= p ==> !io.stuck(slot, p)
  }

  /** Something strictly below `path` makes `unlink` or `rmdir` raise. */
  ghost predicate StuckBelow(t: Tree, slot: Slot, path: Path, io: Io) {
    exists p :: p in t && path <= p && p != path && io.stuck(slot, p)
  }

  ghost predicate GoneUnstuck(t: Tree, u: Tree, slot: Slot, io: Io) {
    forall p :: p in t && p !in u ==> !io.stuck(slot, p)
  }

  /** `t` without `path` and everything below it; removing the root leaves no tree. */
  function Cut(t: Tree, path: Path): Option<Tree> {
    if path == [] then None else Some(t - Under(t, path))
  }

  /** The two file systems agree on every slot but one. */
  ghost predicate Elsewhere(d: Dirs, e: Dirs, slot: Slot) {
    With(d, slot, None) == With(e, slot, None)
  }

  /** `d` is `before` with part of one subtree of one slot removed, and nothing else touched. */
  ghost predicate Trimmed(before: Dirs, d: Dirs, slot: Slot, path: Path) {
    && Elsewhere(before, d, slot)
    && match (At(before, slot), At(d, slot))
       case (Some(t), Some(u)) => Pruned(t, u, path)
       case (Some(t), None) => path == []
       case (None, u) => u.None?
  }

  ghost predicate AllTrimmed(before: Dirs, states: seq<Dirs>, from: nat, slot: Slot, path: Path) {
    forall i :: from <= i < |states| ==> Trimmed(before, states[i], slot, path)
  }

  lemma AllTrimmedBelow(d0: Dirs, d1: Dirs, h1: seq<Dirs>, h: seq<Dirs>, from: nat, slot: Slot, path: Path, child: Path)
    requires At(d1, slot).Some? && Trimmed(d0, d1, slot, path)
    requires path <= child && child != [] && from <= |h1| && h1 <= h
    requires AllTrimmed(d0, h1, from, slot, path) && AllTrimmed(d1, h, |h1|, slot, child)
    ensures AllTrimmed(d0, h, from, slot, path)
  {
    forall i | from <= i < |h|
      ensures Trimmed(d0, h[i], slot, path)
    {
      if i < |h1| {
        assert h[i] == h1[i];
      } else {
        assert Trimmed(d1, h[i], slot, child);
      }
    }
  }

  /** The loop over the children of `path` has reached `d`, passing through `states[from..]`. */
  ghost predicate Removing(d0: Dirs, d: Dirs, states: seq<Dirs>, from: nat, slot: Slot, path: Path, io: Io) {
    && At(d0, slot).Some? && At(d, slot).Some?
    && path in At(d, slot).value && At(d, slot).value[path] == Directory
    && Trimmed(d0, d, slot, path) && GoneUnstuck(At(d0, slot).value, At(d, slot).value, slot, io)
    && AllTrimmed(d0, states, from, slot, path)
  }

  lemma SmallerBelow(t0: Tree, t1: Tree, path: Path, n: string)
    requires Pruned(t0, t1, path) && path in t1 && n in Children(t1, path)
    ensures path + [n] in t1 && Under(t1, path + [n]) < Under(t0, path)
  {
    ChildPresent(t1, path, n);
    assert path in Under(t0, path) && path !in Under(t1, path + [n]);
  }

  lemma RemovedChild(d0: Dirs, d1: Dirs, d: Dirs, h1: seq<Dirs>, h: seq<Dirs>, from: nat,
                     slot: Slot, path: Path, n: string, io: Io)
    requires Removing(d0, d1, h1, from, slot, path, io) && n in Children(At(d1, slot).value, path)
    requires from <= |h1| && h1 <= h && AllTrimmed(d1, h, |h1|, slot, path + [n]) && Trimmed(d1, d, slot, path + [n])
    requires At(d, slot).Some? && GoneUnstuck(At(d1, slot).value, At(d, slot).value, slot, io)
    requires Removable(At(d1, slot).value, slot, path + [n], io) ==> At(d, slot) == Cut(At(d1, slot).value, path + [n])
    ensures Removing(d0, d, h, from, slot, path, io)
    ensures if Removable(At(d1, slot).value, slot, path + [n], io)
            then Children(At(d, slot).value, path) == Children(At(d1, slot).value, path) - {n}
            else StuckBelow(At(d0, slot).value, slot, path, io)
  {
    AllTrimmedBelow(d0, d1, h1, h, from, slot, path, path + [n]);
    OtherChildrenRemain(At(d1, slot).value, path, n);
  }

  lemma LastEntryOfSubtree(d0: Dirs, d1: Dirs, slot: Slot, path: Path, io: Io)
    requires At(d0, slot).Some? && At(d1, slot).Some? && Trimmed(d0, d1, slot, path)
    requires Under(At(d1, slot).value, path) == {path} && path in At(d0, slot).value
    requires GoneUnstuck(At(d0, slot).value, At(d1, slot).value, slot, io)
    ensures Removable(At(d0, slot).value, slot, path, io) <==> !io.stuck(slot, path)
    ensures With(d1, slot, Cut(At(d1, slot).value, path)) == With(d0, slot, Cut(At(d0, slot).value, path))
    ensures Trimmed(d0, With(d0, slot, Cut(At(d0, slot).value, path)), slot, path)
    ensures !io.stuck(slot, path) ==>
              GoneUnstuck(At(d0, slot).value, At(d0, slot).value - Under(At(d0, slot).value, path), slot, io)
  {
    var t0, t1 := At(d0, slot).value, At(d1, slot).value;
    forall p | p in t0 && path <= p && p != path
      ensures p !in t1
    {
      assert p in t1 ==> p in Under(t1, path);
    }
    assert t1 - {path} == t0 - Under(t0, path);
  }

  // ---------------------------------------------------------------------------------------------
  // What apply and rollback leave, and the states they may be cut at

  ghost predicate Clearable(d: Dirs, slot: Slot, io: Io) {
    At(d, slot).Some? ==> Removable(At(d, slot).value, slot, [], io)
  }

  ghost predicate Unpacks(d: Dirs, archive: Archive, io: Io) {
    && archive.Archive? && archive.payload.Some?
    && Clearable(d, Next, io) && !io.mkdirFails && io.extraction.Completes?
  }

  /** A payload that is refused, or fails in a way that is caught, is removed again if nothing resists. */
  ghost predicate CleansUp(d: Dirs, archive: Archive, io: Io) {
    && archive.Archive? && !io.mkdirFails && (forall p: Path :: !io.stuck(Next, p))
    && (archive.payload.None? || !io.extraction.Completes?) && !io.extraction.FailsOtherwise?
  }

  /** Exactly when `apply_host_tree` returns instead of raising. */
  ghost predicate ApplySucceeds(d: Dirs, archive: Archive, io: Io) {
    && Unpacks(d, archive, io) && Clearable(d, Previous, io)
    && (d.live.Some? ==> !io.renameFails(Live)) && !io.renameFails(Next)
  }

  /** What an apply that returns has left. */
  function Applied(d: Dirs, payload: Tree): Dirs {
    Dirs(Some(payload), d.live, None, d.failed)
  }

  /** What an apply has left when one of its renames raised: all in place, or the live tree displaced. */
  function Stopped(d: Dirs, io: Io): Dirs {
    if io.renameFails(Live) then d else d.(live := None, previous := d.live)
  }

  /** Exactly when `rollback_host_tree` returns instead of raising. */
  ghost predicate RollbackSucceeds(d: Dirs, io: Io) {
    d.previous.Some? ==>
      && Clearable(d, Failed, io) && !io.renameFails(Previous)
      && (d.live.Some? ==> !io.renameFails(Live) && Removable(d.live.value, Failed, [], io))
  }

  /** What a rollback that returns has left. */
  function RolledBack(d: Dirs): Dirs {
    if d.previous.Some? then Dirs(d.previous, None, d.next, None) else d
  }

  /** The `.previous` that stood before an apply has been removed, so what is there now is the displaced live tree. */
  ghost predicate StaleGone(before: Dirs, d: Dirs) {
    d.previous.Some? ==> d.previous == before.live
  }

  /** Some of that stale `.previous` is still there; nothing has been displaced yet. */
  ghost predicate StaleLeft(before: Dirs, d: Dirs) {
    && before.previous.Some? && d.previous.Some? && Pruned(before.previous.value, d.previous.value, [])
    && d.live == before.live
  }

  ghost predicate HoldsPayload(archive: Archive, t: Option<Tree>) {
    t.Some? && archive == Archive(t)
  }

  /**
    A state an apply may be cut at.  With a live tree to begin with, the live name holds the whole old tree,
    or nothing while the whole old tree is at `.previous` and the whole new one at `.next`, or the whole new
    tree with the old one whole at `.previous`.  Without one, the live name holds nothing or the whole new tree.
   */
  ghost predicate ApplyPoint(before: Dirs, archive: Archive, d: Dirs) {
    && (d.live == before.live
        || (&& d.previous == before.live
            && HoldsPayload(archive, if d.live.Some? then d.live else d.next)))
    && (StaleGone(before, d) || StaleLeft(before, d))
    && d.failed == before.failed
  }

  ghost predicate AllApplyPoints(before: Dirs, archive: Archive, states: seq<Dirs>, from: nat) {
    forall i :: from <= i < |states| ==> ApplyPoint(before, archive, states[i])
  }

  /** A state a rollback may be cut at: the tree being restored is whole, at `.previous` or already live. */
  ghost predicate RollbackPoint(before: Dirs, d: Dirs) {
    && d.next == before.next
    && if before.previous.Some?
       then
         || (d.previous == before.previous && d.live in {None, before.live})
         || (d.live == before.previous && d.previous.None?)
       else d == before
  }

  ghost predicate AllRollbackPoints(before: Dirs, states: seq<Dirs>, from: nat) {
    forall i :: from <= i < |states| ==> RollbackPoint(before, states[i])
  }

  /** The live name holds nothing in one of these states. */
  ghost predicate Gap(states: seq<Dirs>, from: nat) {
    exists i :: from <= i < |states| && states[i].live.None?
  }

  /** An apply has got as far as its renames: the payload is unpacked, and no stale `.previous` is in the way. */
  ghost predicate ReachesSwap(d: Dirs, archive: Archive, io: Io) {
    Unpacks(d, archive, io) && Clearable(d, Previous, io)
  }

  /**
    What an apply leaves, whether it returns or raises.  One that gets as far as its renames leaves exactly the files
    as they are after the last rename that worked; one that cannot clear a stale `.previous` leaves part of it; one
    that does not get through extraction leaves all but `.next` alone.
   */
  ghost predicate ApplyLeaves(before: Dirs, archive: Archive, io: Io, d: Dirs) {
    && ApplyPoint(before, archive, d)
    && if ApplySucceeds(before, archive, io) then d == Applied(before, archive.payload.value)
       else if ReachesSwap(before, archive, io) then d == Stopped(before.(previous := None, next := archive.payload), io)
       else if Unpacks(before, archive, io) then StaleLeft(before, d)
       else Elsewhere(before, d, Next)
  }

  /** What a rollback leaves at the live name, whether it returns or raises. */
  ghost function LiveAfterRollback(d: Dirs, io: Io): Option<Tree> {
    if d.previous.None? || !Retires(d, d.live.Some?, io) then d.live
    else if io.renameFails(Previous) then None
    else d.previous
  }

  /** A rollback that finds a `.previous` gets as far as emptying the live name, `filled` or not. */
  ghost predicate Retires(d: Dirs, filled: bool, io: Io) {
    Clearable(d, Failed, io) && (filled ==> !io.renameFails(Live))
  }

  /** And as far as putting `.previous` there. */
  ghost predicate PutsBack(d: Dirs, filled: bool, io: Io) {
    Retires(d, filled, io) && !io.renameFails(Previous)
  }

  /** The live tree is no remainder of the stale one, so finding it live again is no accident. */
  ghost predicate LiveIsNoRemainder(d: Dirs) {
    d.live.Some? && d.previous.Some? ==> !Pruned(d.previous.value, d.live.value, [])
  }

  /**
    Rolling back from any point of an apply yields the old tree if nothing of a stale `.previous` is left and, where
    nothing was live before, nothing is; and, unless the live tree is a remainder of the stale one, only then.
   */
  lemma RollbackFromApplyPoint(before: Dirs, archive: Archive, d: Dirs)
    requires ApplyPoint(before, archive, d)
    ensures StaleGone(before, d) && (before.live.Some? || d.live.None?) ==> RolledBack(d).live == before.live
    ensures LiveIsNoRemainder(before) ==>
              (RolledBack(d).live == before.live <==> !StaleLeft(before, d) && (before.live.Some? || d.live.None?))
  {
    if before.live.Some? && before.previous.Some? && d.previous == before.live {
      assert StaleLeft(before, d) ==> Pruned(before.previous.value, before.live.value, []);
    }
  }

  /** No two of the live tree, the payload and what may be left of a stale `.previous` are the same by accident. */
  ghost predicate ToldApart(before: Dirs, archive: Archive) {
    LiveIsNoRemainder(before) && (before.live.Some? ==> archive != Archive(before.live))
  }

  /**
    Whether an apply with the answers `io` and a rollback with `back` after it leave the live tree as it was.  An apply
    that returned is undone if there was a live tree to go back to and the rollback puts it back.  One that stopped at
    its renames, if nothing has been displaced or the rollback puts it back.  One that stopped before them left the
    live tree alone, and the rollback does it no good: there must be no stale `.previous`, or the rollback must fail
    before it touches the live name.
   */
  ghost predicate Undone(before: Dirs, archive: Archive, io: Io, back: Io) {
    if ApplySucceeds(before, archive, io) then before.live.Some? && PutsBack(before, true, back)
    else if ReachesSwap(before, archive, io) then
      before.live.None? || io.renameFails(Live) || PutsBack(before, false, back)
    else
      || before.previous.None?
      || !(if before.live.Some? then Retires(before, true, back) else PutsBack(before, false, back))
  }

  /**
    An apply and the rollback after it leave the live tree as it was in those cases; and, where the trees are told
    apart, in no other.  An archive that does not unpack is no apply at all: only the rollback counts.
   */
  lemma RestoredExactlyWhen(before: Dirs, archive: Archive, io: Io, d: Dirs, back: Io)
    requires ApplyLeaves(before, archive, io, d)
    ensures Undone(before, archive, io, back) ==> LiveAfterRollback(d, back) == before.live
    ensures ToldApart(before, archive) ==>
              (LiveAfterRollback(d, back) == before.live <==> Undone(before, archive, io, back))
    ensures !Unpacks(before, archive, io) ==> LiveAfterRollback(d, back) == LiveAfterRollback(before, back)
  {
    assert Clearable(d, Failed, back) <==> Clearable(before, Failed, back);
    if before.previous.Some? {
      assert Pruned(before.previous.value, before.previous.value, []);
    }
  }

  /**
    The live name is empty between the two renames.  If the next apply starts from such a state it removes
    `.previous`, the only copy of the old tree, so a rollback after it no longer finds anything to restore.
   */
  lemma ApplyAfterGapLosesOldTree(before: Dirs, archive: Archive, gap: Dirs, again: Archive, io: Io)
    requires before.live.Some? && gap.live.None? && ApplyPoint(before, archive, gap)
    requires ApplySucceeds(gap, again, io)
    ensures gap.previous == before.live
    ensures RolledBack(Applied(gap, again.payload.value)).live == again.payload
  {
  }

  /**
    One step of an apply or a rollback of `payload`.  `.next` and `.failed` may be written and cleared freely, and
    `.previous` be cleared; the live name changes only by whole renames: the live tree is displaced once the whole
    payload is at `.next`, or retired when there is a `.previous` to restore; the payload is promoted, `.previous`
    restored.
   */
  ghost predicate Move(payload: Option<Tree>, d: Dirs, e: Dirs) {
    || Elsewhere(d, e, Next) || Elsewhere(d, e, Failed) || Trimmed(d, e, Previous, [])
    || (d.live.Some? && d.previous.None? && d.next.Some? && d.next == payload && e == d.(live := None, previous := d.live))
    || (d.live.None? && d.next.Some? && d.next == payload && e == d.(next := None, live := d.next))
    || (d.live.Some? && d.previous.Some? && d.failed.None? && e == d.(live := None, failed := d.live))
    || (d.live.None? && d.previous.Some? && e == d.(previous := None, live := d.previous))
  }

  ghost predicate AllMoves(payload: Option<Tree>, states: seq<Dirs>) {
    forall i :: 0 < i < |states| ==> Move(payload, states[i - 1], states[i])
  }

  ghost predicate AllStatesSound(states: seq<Dirs>) {
    forall i :: 0 <= i < |states| ==> AllSound(states[i])
  }

  /** The stale `.previous` can be emptied, but its own directory cannot be removed. */
  ghost predicate LeavesRootOnly(d: Dirs, archive: Archive, io: Io) {
    && Unpacks(d, archive, io) && d.previous.Some?
    && !StuckBelow(d.previous.value, Previous, [], io) && !Clearable(d, Previous, io)
  }

  lemma SwapSeenFromBefore(before: Dirs, archive: Archive, io: Io, cleared: Dirs, d: Dirs)
    requires ReachesSwap(before, archive, io) && HoldsPayload(archive, cleared.next)
    requires cleared == before.(previous := None, next := cleared.next)
    requires ApplyPoint(cleared, Archive(cleared.next), d) && StaleGone(cleared, d)
    requires if ApplySucceeds(before, archive, io) then d == Applied(cleared, cleared.next.value)
             else d == Stopped(cleared, io)
    ensures ApplyLeaves(before, archive, io, d)
  {
  }

  lemma PointsSeenFromBefore(before: Dirs, archive: Archive, cleared: Dirs, states: seq<Dirs>, from: nat, n: nat)
    requires from <= n <= |states| && HoldsPayload(archive, cleared.next)
    requires cleared == before.(previous := None, next := cleared.next)
    requires forall i :: from <= i < n ==> ApplyPoint(before, archive, states[i])
    requires AllApplyPoints(cleared, Archive(cleared.next), states, n)
    ensures AllApplyPoints(before, archive, states, from)
  {
    forall i | n <= i < |states|
      ensures ApplyPoint(before, archive, states[i])
    {
      assert ApplyPoint(cleared, Archive(cleared.next), states[i]);
    }
  }

  /** With the live name filled in every earlier state, a gap can only come later. */
  lemma GapOnlyInSwap(states: seq<Dirs>, from: nat, n: nat)
    requires from <= n <= |states| && forall i :: from <= i < n ==> states[i].live.Some?
    ensures Gap(states, from) <==> Gap(states, n)
  {
  }

  class HostSite {
    const payload: Option<Tree>
    var dirs: Dirs
    var history: seq<Dirs>

    ghost predicate Valid()
      reads this
    {
      && |history| > 0 && history[|history| - 1] == dirs
      && AllStatesSound(history) && AllMoves(payload, history)
    }

    constructor (d: Dirs, payload: Option<Tree>)
      requires AllSound(d)
      ensures Valid() && dirs == d && history == [d] && this.payload == payload
    {
      this.payload, dirs, history := payload, d, [d];
    }

    method Put(d: Dirs)
      requires Valid() && AllSound(d) && Move(payload, dirs, d)
      modifies this
      ensures Valid() && dirs == d && history == old(history) + [d]
    {
      dirs, history := d, history + [d];
    }

    /** Removes one entry that has nothing below it: `rmdir` or `unlink`. */
    method RemoveLeaf(slot: Slot, path: Path, io: Io) returns (ok: bool)
      requires Valid() && slot != Live && At(dirs, slot).Some? && path in At(dirs, slot).value
      requires Under(At(dirs, slot).value, path) == {path}
      modifies this
      ensures Valid() && (ok <==> !io.stuck(slot, path))
      ensures !ok ==> dirs == old(dirs) && history == old(history)
      ensures ok ==> dirs == With(old(dirs), slot, Cut(At(old(dirs), slot).value, path))
      ensures ok ==> history == old(history) + [dirs]
    {
      if io.stuck(slot, path) {
        return false;
      }
      if path != [] {
        LeafRemovalKeepsWellFormed(At(dirs, slot).value, path);
      }
      Put(With(dirs, slot, Cut(At(dirs, slot).value, path)));
      ok := true;
    }

    /** The loop over `path.iterdir()`, in whatever order the names come; it stops at the first error. */
    method RmChildren(slot: Slot, path: Path, io: Io) returns (ok: bool)
      requires Valid() && slot != Live && At(dirs, slot).Some? && path in At(dirs, slot).value
      requires At(dirs, slot).value[path] == Directory
      modifies this
      ensures Valid() && old(history) <= history
      ensures Removing(old(dirs), dirs, history, |old(history)|, slot, path, io)
      ensures ok ==> Children(At(dirs, slot).value, path) == {}
      ensures !ok ==> StuckBelow(At(old(dirs), slot).value, slot, path, io)
      decreases Under(At(dirs, slot).value, path), 0
    {
      ghost var d0 := dirs;
      var names := Children(At(dirs, slot).value, path);
      while names != {}
        invariant Valid() && old(history) <= history
        invariant Removing(d0, dirs, history, |old(history)|, slot, path, io)
        invariant Children(At(dirs, slot).value, path) == names
        decreases names
      {
        var n :| n in names;
        ghost var d1, h1 := dirs, history;
        SmallerBelow(At(d0, slot).value, At(d1, slot).value, path, n);
        ok := RmTree(slot, path + [n], io);
        RemovedChild(d0, d1, dirs, h1, history, |old(history)|, slot, path, n, io);
        if !ok {
          return;
        }
        names := names - {n};
      }
      ok := true;
    }

    /** `_rmtree`: removes `path` and everything below it, children first; a link is unlinked, never followed. */
    method RmTree(slot: Slot, path: Path, io: Io) returns (ok: bool)
      requires Valid() && slot != Live && At(dirs, slot).Some? && path in At(dirs, slot).value
      modifies this
      ensures Valid() && old(history) <= history
      ensures ok <==> Removable(At(old(dirs), slot).value, slot, path, io)
      ensures ok ==> dirs == With(old(dirs), slot, Cut(At(old(dirs), slot).value, path))
      ensures !ok ==> At(dirs, slot).Some?
      ensures !ok && !StuckBelow(At(old(dirs), slot).value, slot, path, io) ==> Under(At(dirs, slot).value, path) == {path}
      ensures At(dirs, slot).Some? ==> GoneUnstuck(At(old(dirs), slot).value, At(dirs, slot).value, slot, io)
      ensures Trimmed(old(dirs), dirs, slot, path)
      ensures AllTrimmed(old(dirs), history, |old(history)|, slot, path)
      decreases Under(At(dirs, slot).value, path), 1
    {
      if At(dirs, slot).value[path] == Directory {
        ok := RmChildren(slot, path, io);
        if !ok {
          return;
        }
      }
      ChildlessIsAlone(At(dirs, slot).value, path);
      LastEntryOfSubtree(old(dirs), dirs, slot, path, io);
      ok := RemoveLeaf(slot, path, io);
    }

    /** Clears a slot if something is there, as the `if dir.exists(): _rmtree(dir)` lines do. */
    method Clear(slot: Slot, io: Io) returns (ok: bool)
      requires Valid() && slot != Live
      modifies this
      ensures Valid() && old(history) <= history
      ensures ok <==> Clearable(old(dirs), slot, io)
      ensures if ok then At(dirs, slot).None? else At(dirs, slot).Some?
      ensures !ok && !StuckBelow(At(old(dirs), slot).value, slot, [], io) ==> Under(At(dirs, slot).value, []) == {[]}
      ensures Trimmed(old(dirs), dirs, slot, [])
      ensures AllTrimmed(old(dirs), history, |old(history)|, slot, [])
    {
      ok := true;
      if At(dirs, slot).Some? {
        ok := RmTree(slot, [], io);
      }
    }

    /** A fresh `.next` holding the unpacked payload, or an error; no other slot is touched. */
    method Unpack(archive: Archive, io: Io) returns (ok: bool)
      requires Valid() && Sane(io) && SoundArchive(archive)
      modifies this
      ensures Valid() && old(history) <= history
      ensures Elsewhere(old(dirs), dirs, Next)
      ensures forall i :: |old(history)| <= i < |history| ==> Elsewhere(old(dirs), history[i], Next)
      ensures ok <==> Unpacks(old(dirs), archive, io)
      ensures ok ==> HoldsPayload(archive, dirs.next)
      ensures CleansUp(old(dirs), archive, io) ==> dirs.next.None?
    {
      if archive.NotAFile? {
        return false;
      }
      ok := Clear(Next, io);
      if !ok || io.mkdirFails {
        return false;
      }
      Put(dirs.(next := Some(EMPTY_DIRECTORY)));
      for k := 0 to |io.partials|
        invariant Valid() && old(history) <= history
        invariant Elsewhere(old(dirs), dirs, Next)
        invariant forall i :: |old(history)| <= i < |history| ==> Elsewhere(old(dirs), history[i], Next)
      {
        Put(dirs.(next := Some(io.partials[k])));
      }
      if archive.payload.None? || !io.extraction.Completes? {
        if !io.extraction.FailsOtherwise? {
          ok := Clear(Next, io);
        }
        return false;
      }
      Put(dirs.(next := archive.payload));
    }

    /** The two renames that put `.next` in place of the live tree. */
    method Swap(io: Io) returns (ok: bool)
      requires Valid() && dirs.next.Some? && dirs.next == payload && dirs.previous.None?
      modifies this
      ensures Valid() && old(history) <= history
      ensures ok <==> (old(dirs).live.Some? ==> !io.renameFails(Live)) && !io.renameFails(Next)
      ensures dirs == if ok then Applied(old(dirs), old(dirs).next.value) else Stopped(old(dirs), io)
      ensures ApplyPoint(old(dirs), Archive(old(dirs).next), dirs)
      ensures AllApplyPoints(old(dirs), Archive(old(dirs).next), history, |old(history)|)
      ensures StaleGone(old(dirs), dirs)
      ensures old(dirs).live.Some? ==> (Gap(history, |old(history)|) <==> !io.renameFails(Live))
    {
      ghost var before := |history|;
      if dirs.live.Some? {
        if io.renameFails(Live) {
          return false;
        }
        Put(dirs.(live := None, previous := dirs.live));
        assert history[before].live.None?;
      }
      if io.renameFails(Next) {
        return false;
      }
      ghost var displaced := history;
      Put(dirs.(next := None, live := dirs.next));
      assert old(dirs).live.Some? ==> history[before] == displaced[before];
      ok := true;
    }

    /** Everything before the renames: the payload unpacked into `.next`, and a stale `.previous` removed. */
    method MakeWay(archive: Archive, io: Io) returns (ok: bool)
      requires Valid() && Sane(io) && SoundArchive(archive)
      modifies this
      ensures Valid() && old(history) <= history
      ensures ok <==> ReachesSwap(old(dirs), archive, io)
      ensures ok ==> HoldsPayload(archive, dirs.next) && dirs == old(dirs).(previous := None, next := dirs.next)
      ensures !ok ==> ApplyLeaves(old(dirs), archive, io, dirs)
      ensures AllApplyPoints(old(dirs), archive, history, |old(history)|)
      ensures forall i :: |old(history)| <= i < |history| ==> history[i].live == old(dirs).live
      ensures LeavesRootOnly(old(dirs), archive, io) ==> dirs.previous.Some? && Under(dirs.previous.value, []) == {[]}
    {
      ok := Unpack(archive, io);
      if ok {
        ok := Clear(Previous, io);
      }
    }

    /**
      `apply_host_tree`.  The documentation promises that a cut leaves the old or the new tree live; the code
      has one more state, between its two renames, in which nothing is.  An apply over a live tree goes through it
      exactly if it gets as far as the renames and the first of them works.
     */
    method Apply(archive: Archive, io: Io) returns (ok: bool)
      requires Valid() && Sane(io) && SoundArchive(archive) && (archive.Archive? ==> archive.payload == payload)
      modifies this
      ensures Valid() && old(history) <= history
      ensures ok <==> ApplySucceeds(old(dirs), archive, io)
      ensures ApplyLeaves(old(dirs), archive, io, dirs)
      ensures AllApplyPoints(old(dirs), archive, history, |old(history)|)
      ensures old(dirs).live.Some? ==>
                (Gap(history, |old(history)|) <==> ReachesSwap(old(dirs), archive, io) && !io.renameFails(Live))
      ensures LeavesRootOnly(old(dirs), archive, io) ==> dirs.previous.Some? && Under(dirs.previous.value, []) == {[]}
    {
      ok := MakeWay(archive, io);
      if ok {
        ghost var n, cleared := |history|, dirs;
        ok := Swap(io);
        SwapSeenFromBefore(old(dirs), archive, io, cleared, dirs);
        PointsSeenFromBefore(old(dirs), archive, cleared, history, |old(history)|, n);
        if old(dirs).live.Some? {
          GapOnlyInSwap(history, |old(history)|, n);
        }
      }
    }

    /** The two renames that put `.previous` back in place of the live tree. */
    method SwapBack(io: Io) returns (ok: bool)
      requires Valid() && dirs.previous.Some? && dirs.failed.None?
      modifies this
      ensures Valid() && old(history) <= history
      ensures ok <==> (old(dirs).live.Some? ==> !io.renameFails(Live)) && !io.renameFails(Previous)
      ensures ok ==> dirs == Dirs(old(dirs).previous, None, old(dirs).next, old(dirs).live)
      ensures !ok ==> dirs == if io.renameFails(Live) then old(dirs) else old(dirs).(live := None, failed := old(dirs).live)
      ensures RollbackPoint(old(dirs), dirs)
      ensures AllRollbackPoints(old(dirs), history, |old(history)|)
    {
      if dirs.live.Some? {
        if io.renameFails(Live) {
          return false;
        }
        Put(dirs.(live := None, failed := dirs.live));
      }
      if io.renameFails(Previous) {
        return false;
      }
      Put(dirs.(previous := None, live := dirs.previous));
      ok := true;
    }

    /** `rollback_host_tree`: whatever is at `.previous` becomes the live tree; with nothing there, nothing happens. */
    method Rollback(io: Io) returns (ok: bool)
      requires Valid()
      modifies this
      ensures Valid() && old(history) <= history
      ensures ok <==> RollbackSucceeds(old(dirs), io)
      ensures ok ==> dirs == RolledBack(old(dirs))
      ensures dirs.live == LiveAfterRollback(old(dirs), io)
      ensures RollbackPoint(old(dirs), dirs)
      ensures AllRollbackPoints(old(dirs), history, |old(history)|)
    {
      if dirs.previous.None? {
        return true;
      }
      ok := Clear(Failed, io);
      if !ok {
        return;
      }
      ok := SwapBack(io);
      if !ok {
        return;
      }
      ok := Clear(Failed, io);
    }
  }

  const NOTHING_FAILS := Io((slot: Slot, path: Path) => false, false, (slot: Slot) => false, [], Completes)

  /** An archive that does not unpack, over a site with a stale `.previous`: the stale tree ends up live. */
  method FailedExtractionBringsBackStaleTree(running: Tree, stale: Tree, payload: Option<Tree>) returns (live: Option<Tree>)
    requires WellFormed(running) && WellFormed(stale) && Sound(payload)
    ensures live == Some(stale)
  {
    var site := new HostSite(Dirs(Some(running), Some(stale), None, None), payload);
    var applied := site.Apply(Archive(payload), NOTHING_FAILS.(extraction := FailsCleanly));
    var undone := site.Rollback(NOTHING_FAILS);
    live := site.dirs.live;
  }

  /**
    A stale `.previous` whose own directory cannot be removed, although everything in it can: the apply raises once
    it has emptied it, and the rollback puts the empty directory live in place of a tree that nothing was wrong with.
   */
  method EmptiedTreeGoesLive(running: Tree, stale: Tree, payload: Tree) returns (live: Option<Tree>)
    requires WellFormed(running) && WellFormed(stale) && WellFormed(payload) && stale[[]] == Directory
    ensures live == Some(EMPTY_DIRECTORY)
  {
    var site := new HostSite(Dirs(Some(running), Some(stale), None, None), Some(payload));
    var busy := NOTHING_FAILS.(stuck := (slot: Slot, path: Path) => slot == Previous && path == []);
    var applied := site.Apply(Archive(Some(payload)), busy);
    OnlyTheRoot(stale, site.dirs.previous.value);
    var undone := site.Rollback(NOTHING_FAILS);
    live := site.dirs.live;
  }

  /**
    The first payload a device ever gets, with nothing at any of the four names: there is no old tree to go back to, so
    the rollback after it leaves the new one live.
   */
  method FirstPayloadStaysLive(payload: Tree) returns (live: Option<Tree>)
    requires WellFormed(payload)
    ensures live == Some(payload)
  {
    var site := new HostSite(Dirs(None, None, None, None), Some(payload));
    var applied := site.Apply(Archive(Some(payload)), NOTHING_FAILS);
    var undone := site.Rollback(NOTHING_FAILS);
    live := site.dirs.live;
  }

  lemma OnlyTheRoot(t: Tree, u: Tree)
    requires WellFormed(u) && Pruned(t, u, []) && Under(u, []) == {[]} && [] in t && t[[]] == Directory
    ensures u == EMPTY_DIRECTORY
  {
    forall p | p in u
      ensures p == []
    {
      assert p in Under(u, []);
    }
  }
}
