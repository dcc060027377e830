/** Writing a set of output files as one transaction. Every file operation either happens whole or
    fails, as an arbitrary schedule decides; the log records every state the files pass through. */
module OutputTransaction {
  import opened Optional
  import opened Sequences

  type Bytes = seq<bv8>

  datatype Role = Stage | Backup

  /** A file name, or a temporary name chosen beside an output. */
  datatype Path = Named(name: string) | Temp(role: Role, beside: string, serial: nat)

  type Files = map<Path, Bytes>

  // ---------- The file system ----------

  class FileSystem {
    /** Operation number n succeeds exactly when allowed(n); a write takes at most chunk(n) bytes. */
    const allowed: nat -> bool
    const chunk: nat -> nat
    var clock: nat
    var files: Files
    var sequence: nat
    ghost var log: seq<Files>

    constructor (files: Files, sequence: nat, allowed: nat -> bool, chunk: nat -> nat)
      requires forall p :: p in files && p.Temp? ==> p.serial < sequence
      ensures Valid() && this.files == files && this.sequence == sequence && clock == 0 && log == []
      ensures this.allowed == allowed && this.chunk == chunk
    {
      this.allowed, this.chunk := allowed, chunk;
      this.clock, this.files, this.sequence, this.log := 0, files, sequence, [];
    }

    /** Temporary names with a serial not yet used are free. */
    ghost predicate Valid()
      reads this
    {
      forall p :: p in files && p.Temp? ==> p.serial < sequence
    }

    /** Any operation that changes no contents: checking a status, making a directory, setting permissions. */
    method Attempt() returns (ok: bool)
      modifies this`clock
      ensures clock == old(clock) + 1 && ok == allowed(old(clock))
    {
      ok := allowed(clock);
      clock := clock + 1;
    }

    method Rename(from: Path, to: Path) returns (ok: bool)
      requires Valid() && from != to && (to.Named? || to in files)
      modifies this`clock, this`files, this`log
      ensures Valid() && log == old(log) + [files]
      ensures clock == old(clock) + 1 && ok == (allowed(old(clock)) && from in old(files))
      ensures ok ==> files == (old(files) - {from})[to := old(files)[from]]
      ensures !ok ==> files == old(files)
    {
      ok := Attempt();
      ok := ok && from in files;
      if ok {
        files := (files - {from})[to := files[from]];
      }
      log := log + [files];
    }

    /** Removing a file that does not exist succeeds. */
    method Remove(p: Path) returns (ok: bool)
      requires Valid()
      modifies this`clock, this`files, this`log
      ensures Valid() && log == old(log) + [files]
      ensures clock == old(clock) + 1 && ok == allowed(old(clock))
      ensures files == if ok then old(files) - {p} else old(files)
    {
      ok := Attempt();
      if ok {
        files := files - {p};
      }
      log := log + [files];
    }

    /** Writes the bytes piece by piece, and closes the file. */
    method Fill(p: Path, bytes: Bytes, ghost before: Files) returns (ok: bool)
      requires Valid() && p !in before && files == before[p := []]
      requires p.Temp? ==> p.serial < sequence
      modifies this`clock, this`files, this`log
      ensures Valid() && old(log) <= log
      ensures forall k :: |old(log)| <= k < |log| ==> CreateState(before, log[k], p)
      ensures CreateState(before, files, p) && p in files
      ensures ok ==> files == before[p := bytes]
      ensures (ok, clock) == FillRun(allowed, chunk, old(clock), |bytes|)
      ensures Willing(allowed, chunk) ==> ok
    {
      hide CreateState, FillRun;
      var offset := 0;
      AddRemove(before, p, []);
      ghost var size := |bytes|;
      while offset < |bytes|
        invariant Valid() && old(log) <= log && offset <= |bytes|
        invariant forall k :: |old(log)| <= k < |log| ==> CreateState(before, log[k], p)
        invariant CreateState(before, files, p) && files == before[p := bytes[..offset]]
        invariant FillRun(allowed, chunk, old(clock), size) == FillRun(allowed, chunk, clock, size - offset)
      {
        var taken := if allowed(clock) then Least(chunk(clock), |bytes| - offset) else 0;
        FillStep(allowed, chunk, clock, size - offset);
        clock := clock + 1;
        if taken == 0 { return false; }
        offset := offset + taken;
        assert files[p := bytes[..offset]] == before[p := bytes[..offset]];
        files := files[p := bytes[..offset]];
        AddRemove(before, p, bytes[..offset]);
        log := log + [files];
      }
      assert bytes[..|bytes|] == bytes;
      FillStep(allowed, chunk, clock, 0);
      ok := Attempt();
    }

    /** Creates a temporary file. A failed write removes the file again and ignores a failure to do so:
        the file that then stays behind is the stray. */
    method Create(name: string, bytes: Bytes, role: Role) returns (r: Option<Path>, ghost stray: Option<Path>)
      requires Valid()
      modifies this
      ensures Valid() && sequence == old(sequence) + 1 && old(log) <= log
      ensures forall k :: |old(log)| <= k < |log| ==> CreateState(old(files), log[k], Temp(role, name, old(sequence)))
      ensures r.Some? ==>
                r.value == Temp(role, name, old(sequence)) && files == old(files)[r.value := bytes] && stray.None?
      ensures r.None? && stray.None? ==> files == old(files)
      ensures stray.Some? ==>
                stray.value == Temp(role, name, old(sequence)) && stray.value in files &&
                CreateState(old(files), files, stray.value)
      ensures Made(r.Some?, stray.Some?, clock) == CreateRun(allowed, chunk, old(clock), |bytes|)
      ensures Willing(allowed, chunk) ==> r.Some?
    {
      var p := Temp(role, name, sequence);
      ghost var before := files;
      sequence := sequence + 1;
      var created := Attempt();
      if !created { return None, None; }
      AddRemove(before, p, []);
      files := files[p := []];
      log := log + [files];
      var ok := Fill(p, bytes, before);
      if ok { return Some(p), None; }
      var ignored := Remove(p);
      r, stray := None, if ignored then None else Some(p);
      NothingToRemove(before, p);
    }
  }

  // ---------- What a schedule makes of a transaction ----------

  /** Whether some operations succeed, whether they leave a stray, and the number of the next operation. */
  datatype Made = Made(ok: bool, stray: bool, clock: nat)

  /** Writing what is left of a file, then closing it. */
  function FillRun(allowed: nat -> bool, chunk: nat -> nat, clock: nat, left: nat): (r: (bool, nat))
    decreases left
  {
    if left == 0 then (allowed(clock), clock + 1)
    else
      var taken := if allowed(clock) then Least(chunk(clock), left) else 0;
      if taken == 0 then (false, clock + 1) else FillRun(allowed, chunk, clock + 1, left - taken)
  }

  /** A stray is left when a created file cannot be filled, nor removed right after that. */
  function CreateRun(allowed: nat -> bool, chunk: nat -> nat, clock: nat, size: nat): Made {
    if !allowed(clock) then Made(false, false, clock + 1)
    else
      var (filled, next) := FillRun(allowed, chunk, clock + 1, size);
      if filled then Made(true, false, next) else Made(false, !allowed(next), next + 1)
  }

  /** Making the directory of an output and staging its new bytes there. */
  function StageOneRun(allowed: nat -> bool, chunk: nat -> nat, clock: nat, size: nat): Made {
    if allowed(clock) then CreateRun(allowed, chunk, clock + 1, size) else Made(false, false, clock + 1)
  }

  /** Staging the outputs from number i on, up to the first failure. */
  function StageRun(allowed: nat -> bool, chunk: nat -> nat, clock: nat, requests: seq<Request>, i: nat): Made
    requires i <= |requests|
    decreases |requests| - i
  {
    if i == |requests| then Made(true, false, clock)
    else
      var m := StageOneRun(allowed, chunk, clock, |requests[i].bytes|);
      if m.ok then StageRun(allowed, chunk, m.clock, requests, i + 1) else m
  }

  /** Making an empty file for the backup and moving the output there. */
  function BackUpRun(allowed: nat -> bool, chunk: nat -> nat, clock: nat): Made {
    var m := CreateRun(allowed, chunk, clock, 0);
    if m.ok then Made(allowed(m.clock), false, m.clock + 1) else m
  }

  /** Checking an output, backing it up if it exists, moving the staged file there and setting its permissions. */
  function InstallOneRun(allowed: nat -> bool, chunk: nat -> nat, clock: nat, existed: bool): Made {
    if !allowed(clock) then Made(false, false, clock + 1)
    else
      var m := if existed then BackUpRun(allowed, chunk, clock + 1) else Made(true, false, clock + 1);
      if !m.ok then m
      else if !allowed(m.clock) then Made(false, false, m.clock + 1)
      else Made(allowed(m.clock + 1), false, m.clock + 2)
  }

  /** Installing the outputs from number i on, up to the first failure. */
  function InstallRun(allowed: nat -> bool, chunk: nat -> nat, clock: nat, f0: Files, requests: seq<Request>, i: nat):
    Made
    requires i <= |requests|
    decreases |requests| - i
  {
    if i == |requests| then Made(true, false, clock)
    else
      var m := InstallOneRun(allowed, chunk, clock, Named(requests[i].output) in f0);
      if m.ok then InstallRun(allowed, chunk, m.clock, f0, requests, i + 1) else m
  }

  /** The transaction up to its first failure, if any. */
  function ForwardRun(allowed: nat -> bool, chunk: nat -> nat, clock: nat, f0: Files, requests: seq<Request>): Made {
    var m := StageRun(allowed, chunk, clock, requests, 0);
    if m.ok then InstallRun(allowed, chunk, m.clock, f0, requests, 0) else m
  }

  /** How far a write got: what there is to undo and to clean. */
  datatype Shape = Shape(staged: bool, backup: bool, backedUp: bool, installed: bool)

  const UNTOUCHED: Shape := Shape(false, false, false, false)
  const STAGED: Shape := Shape(true, false, false, false)

  function ShapeOf(w: PendingWrite): Shape {
    Shape(w.staged.Some?, w.backup.Some?, w.backedUp, w.installed)
  }

  function Shapes(ws: seq<PendingWrite>): (r: seq<Shape>)
    ensures |r| == |ws| && forall i :: 0 <= i < |r| ==> r[i] == ShapeOf(ws[i])
  {
    seq(|ws|, i requires 0 <= i < |ws| => ShapeOf(ws[i]))
  }

  function Repeat(n: nat, s: Shape): (r: seq<Shape>)
    ensures |r| == n && forall i :: 0 <= i < n ==> r[i] == s
  {
    seq(n, _ => s)
  }

  /** The writes from number i on after staging. */
  function StageShapes(allowed: nat -> bool, chunk: nat -> nat, clock: nat, requests: seq<Request>, i: nat):
    (r: seq<Shape>)
    requires i <= |requests|
    ensures |r| == |requests| - i
    decreases |requests| - i
  {
    if i == |requests| then []
    else
      var m := StageOneRun(allowed, chunk, clock, |requests[i].bytes|);
      if m.ok then [STAGED] + StageShapes(allowed, chunk, m.clock, requests, i + 1)
      else Repeat(|requests| - i, UNTOUCHED)
  }

  /** One write after installing it, or after the operation at which that failed. */
  function InstallShape(allowed: nat -> bool, chunk: nat -> nat, clock: nat, existed: bool): Shape {
    if !allowed(clock) then STAGED
    else if !existed then if allowed(clock + 1) then Shape(false, false, false, true) else STAGED
    else
      var m := CreateRun(allowed, chunk, clock + 1, 0);
      if !m.ok then STAGED
      else if !allowed(m.clock) then Shape(true, true, false, false)
      else if !allowed(m.clock + 1) then Shape(true, true, true, false)
      else Shape(false, true, true, true)
  }

  function InstallShapes(allowed: nat -> bool, chunk: nat -> nat, clock: nat, f0: Files, requests: seq<Request>, i: nat):
    (r: seq<Shape>)
    requires i <= |requests|
    ensures |r| == |requests| - i
    decreases |requests| - i
  {
    if i == |requests| then []
    else
      var existed := Named(requests[i].output) in f0;
      var m := InstallOneRun(allowed, chunk, clock, existed);
      [InstallShape(allowed, chunk, clock, existed)] +
      if m.ok then InstallShapes(allowed, chunk, m.clock, f0, requests, i + 1)
      else Repeat(|requests| - i - 1, STAGED)
  }

  /** All the writes when the transaction is through, or has met its first failure. */
  function ForwardShapes(allowed: nat -> bool, chunk: nat -> nat, clock: nat, f0: Files, requests: seq<Request>):
    seq<Shape>
  {
    var m := StageRun(allowed, chunk, clock, requests, 0);
    if m.ok then InstallShapes(allowed, chunk, m.clock, f0, requests, 0)
    else StageShapes(allowed, chunk, clock, requests, 0)
  }

  /** Removing the new output, then moving the backup back, whatever became of the removal. */
  function UndoOneRun(allowed: nat -> bool, clock: nat, s: Shape): (bool, nat, Shape) {
    var removed := !s.installed || allowed(clock);
    var next := if s.installed then clock + 1 else clock;
    if s.backedUp then (removed && allowed(next), next + 1, s.(backup := !allowed(next))) else (removed, next, s)
  }

  /** Undoing the writes from the last to the first. */
  function UndoRun(allowed: nat -> bool, clock: nat, shapes: seq<Shape>): (bool, nat, seq<Shape>)
    decreases |shapes|
  {
    if shapes == [] then (true, clock, [])
    else
      var (ok, next, last) := UndoOneRun(allowed, clock, shapes[|shapes| - 1]);
      var (others, end, front) := UndoRun(allowed, next, shapes[..|shapes| - 1]);
      (ok && others, end, front + [last])
  }

  function CleanOneRun(allowed: nat -> bool, clock: nat, s: Shape, preserve: bool): (bool, nat) {
    var removed := !s.staged || allowed(clock);
    var next := if s.staged then clock + 1 else clock;
    if s.backup && !preserve then (removed && allowed(next), next + 1) else (removed, next)
  }

  /** Removing the temporaries from the first write to the last. */
  function CleanRun(allowed: nat -> bool, clock: nat, shapes: seq<Shape>, preserve: bool): (bool, nat) {
    if shapes == [] then (true, clock)
    else
      var (others, next) := CleanRun(allowed, clock, shapes[..|shapes| - 1], preserve);
      var (ok, end) := CleanOneRun(allowed, next, shapes[|shapes| - 1], preserve);
      (others && ok, end)
  }

  /** How the transaction ends, and the number of the operation that would come next. */
  function FinalRun(allowed: nat -> bool, chunk: nat -> nat, start: nat, f0: Files, requests: seq<Request>):
    (Outcome, nat)
    requires Accepted(requests, allowed, start)
  {
    var m := ForwardRun(allowed, chunk, start + |requests|, f0, requests);
    var shapes := ForwardShapes(allowed, chunk, start + |requests|, f0, requests);
    if m.ok then
      var (cleaned, end) := CleanRun(allowed, m.clock, shapes, false);
      (if cleaned then Committed else CommittedWithLeftovers, end)
    else
      var (undone, next, left) := UndoRun(allowed, m.clock, shapes);
      var (cleaned, end) := CleanRun(allowed, next, left, !undone);
      (if !undone then RollbackIncomplete else if cleaned then RolledBack else RolledBackWithLeftovers, end)
  }

  // ---------- What the schedule's functions mean ----------

  /** No operation of a stretch fails. */
  ghost predicate Smooth(allowed: nat -> bool, from: nat, to: nat) {
    forall n: nat :: from <= n < to ==> allowed(n)
  }

  /** Some operation of a stretch fails, or writes nothing. */
  ghost predicate Hindered(allowed: nat -> bool, chunk: nat -> nat, from: nat, to: nat) {
    exists n: nat :: from <= n < to && (!allowed(n) || chunk(n) == 0)
  }

  /** Operations end well exactly if none of them fails, and badly only if one does or writes nothing. */
  ghost predicate Honest(allowed: nat -> bool, chunk: nat -> nat, clock: nat, ok: bool, next: nat) {
    clock <= next && if ok then Smooth(allowed, clock, next) else Hindered(allowed, chunk, clock, next)
  }

  lemma {:induction false} FillHonest(allowed: nat -> bool, chunk: nat -> nat, clock: nat, left: nat)
    ensures var (filled, next) := FillRun(allowed, chunk, clock, left);
            Honest(allowed, chunk, clock, filled, next)
    decreases left
  {
    FillStops(allowed, chunk, clock, left);
    if left > 0 && allowed(clock) && chunk(clock) > 0 {
      FillHonest(allowed, chunk, clock + 1, left - Least(chunk(clock), left));
    }
  }

  lemma {:induction false} CreateHonest(allowed: nat -> bool, chunk: nat -> nat, clock: nat, size: nat)
    ensures var m := CreateRun(allowed, chunk, clock, size);
            Honest(allowed, chunk, clock, m.ok, m.clock)
  {
    hide FillRun;
    FillHonest(allowed, chunk, clock + 1, size);
    if !allowed(clock) { assert Hindered(allowed, chunk, clock, clock + 1); }
  }

  lemma {:induction false} InstallOneHonest(allowed: nat -> bool, chunk: nat -> nat, clock: nat, existed: bool)
    ensures var m := InstallOneRun(allowed, chunk, clock, existed);
            Honest(allowed, chunk, clock, m.ok, m.clock)
  {
    hide CreateRun;
    CreateHonest(allowed, chunk, clock + 1, 0);
  }

  lemma {:induction false} HonestThen(allowed: nat -> bool, chunk: nat -> nat, clock: nat, middle: nat, ok: bool, next: nat)
    requires Honest(allowed, chunk, clock, true, middle) && Honest(allowed, chunk, middle, ok, next)
    ensures Honest(allowed, chunk, clock, ok, next)
  {
  }

  lemma {:induction false} StageHonest(allowed: nat -> bool, chunk: nat -> nat, clock: nat, requests: seq<Request>,
                                       i: nat)
    requires i <= |requests|
    ensures var m := StageRun(allowed, chunk, clock, requests, i);
            Honest(allowed, chunk, clock, m.ok, m.clock)
    decreases |requests| - i
  {
    hide CreateRun;
    if i < |requests| {
      CreateHonest(allowed, chunk, clock + 1, |requests[i].bytes|);
      var m := StageOneRun(allowed, chunk, clock, |requests[i].bytes|);
      assert Honest(allowed, chunk, clock, m.ok, m.clock);
      hide Honest, StageOneRun;
      if m.ok {
        StageHonest(allowed, chunk, m.clock, requests, i + 1);
        var r := StageRun(allowed, chunk, m.clock, requests, i + 1);
        HonestThen(allowed, chunk, clock, m.clock, r.ok, r.clock);
      }
    }
  }

  lemma {:induction false} InstallHonest(allowed: nat -> bool, chunk: nat -> nat, clock: nat, f0: Files,
                                         requests: seq<Request>, i: nat)
    requires i <= |requests|
    ensures var m := InstallRun(allowed, chunk, clock, f0, requests, i);
            Honest(allowed, chunk, clock, m.ok, m.clock)
    decreases |requests| - i
  {
    hide InstallOneRun;
    if i < |requests| {
      var m := InstallOneRun(allowed, chunk, clock, Named(requests[i].output) in f0);
      InstallOneHonest(allowed, chunk, clock, Named(requests[i].output) in f0);
      if m.ok {
        hide Honest;
        InstallHonest(allowed, chunk, m.clock, f0, requests, i + 1);
        var r := InstallRun(allowed, chunk, m.clock, f0, requests, i + 1);
        HonestThen(allowed, chunk, clock, m.clock, r.ok, r.clock);
      }
    }
  }

  /** The transaction goes forward until an operation fails or writes nothing, and never stops otherwise. */
  lemma {:induction false} ForwardHonest(allowed: nat -> bool, chunk: nat -> nat, clock: nat, f0: Files,
                                         requests: seq<Request>)
    ensures var m := ForwardRun(allowed, chunk, clock, f0, requests);
            Honest(allowed, chunk, clock, m.ok, m.clock)
  {
    hide StageRun, InstallRun, Honest;
    StageHonest(allowed, chunk, clock, requests, 0);
    var m := StageRun(allowed, chunk, clock, requests, 0);
    if m.ok {
      InstallHonest(allowed, chunk, m.clock, f0, requests, 0);
      var r := InstallRun(allowed, chunk, m.clock, f0, requests, 0);
      HonestThen(allowed, chunk, clock, m.clock, r.ok, r.clock);
    }
  }

  lemma {:induction false} SmoothSplit(allowed: nat -> bool, from: nat, middle: nat, to: nat)
    requires from <= middle <= to
    ensures Smooth(allowed, from, to) <==> Smooth(allowed, from, middle) && Smooth(allowed, middle, to)
  {
  }

  lemma {:induction false} UndoOneSmooth(allowed: nat -> bool, clock: nat, s: Shape)
    ensures var (ok, next, s') := UndoOneRun(allowed, clock, s);
            clock <= next && (ok <==> Smooth(allowed, clock, next))
  {
  }

  lemma {:induction false} UndoSmooth(allowed: nat -> bool, clock: nat, shapes: seq<Shape>)
    ensures var (ok, next, left) := UndoRun(allowed, clock, shapes);
            clock <= next && (ok <==> Smooth(allowed, clock, next))
    decreases |shapes|
  {
    hide UndoOneRun;
    if shapes != [] {
      var last, front := shapes[|shapes| - 1], shapes[..|shapes| - 1];
      UndoOneSmooth(allowed, clock, last);
      var (_, next, _) := UndoOneRun(allowed, clock, last);
      UndoSmooth(allowed, next, front);
      var (_, end, _) := UndoRun(allowed, next, front);
      SmoothSplit(allowed, clock, next, end);
    }
  }

  lemma {:induction false} CleanSmooth(allowed: nat -> bool, clock: nat, shapes: seq<Shape>, preserve: bool)
    ensures var (ok, next) := CleanRun(allowed, clock, shapes, preserve);
            clock <= next && (ok <==> Smooth(allowed, clock, next))
  {
    if shapes != [] {
      var last, front := shapes[|shapes| - 1], shapes[..|shapes| - 1];
      CleanSmooth(allowed, clock, front, preserve);
      var (_, next) := CleanRun(allowed, clock, front, preserve);
      CleanOneSmooth(allowed, next, last, preserve);
      hide CleanOneRun;
      var (_, end) := CleanOneRun(allowed, next, last, preserve);
      SmoothSplit(allowed, clock, next, end);
    }
  }

  lemma {:induction false} CleanOneSmooth(allowed: nat -> bool, clock: nat, s: Shape, preserve: bool)
    ensures var (ok, next) := CleanOneRun(allowed, clock, s, preserve);
            clock <= next && (ok <==> Smooth(allowed, clock, next))
  {
  }

  /** The initial files come back whenever nothing fails after the first failure; and a transaction that
      installs all outputs commits without leftovers exactly if nothing fails at all. */
  lemma {:induction false} FinalMeans(allowed: nat -> bool, chunk: nat -> nat, start: nat, f0: Files,
                                      requests: seq<Request>)
    requires Accepted(requests, allowed, start)
    ensures var m := ForwardRun(allowed, chunk, start + |requests|, f0, requests);
            var (outcome, end) := FinalRun(allowed, chunk, start, f0, requests);
            && start + |requests| <= m.clock <= end
            && (outcome == RolledBack <==> !m.ok && Smooth(allowed, m.clock, end))
            && (outcome == Committed <==> m.ok && Smooth(allowed, m.clock, end))
            && (outcome == Committed ==> Smooth(allowed, start, end))
            && (outcome in {Committed, CommittedWithLeftovers} <==> m.ok)
  {
    hide ForwardRun, ForwardShapes, UndoRun, CleanRun, Smooth, Hindered;
    ForwardHonest(allowed, chunk, start + |requests|, f0, requests);
    var m := ForwardRun(allowed, chunk, start + |requests|, f0, requests);
    var shapes := ForwardShapes(allowed, chunk, start + |requests|, f0, requests);
    AcceptedSmooth(allowed, start, requests);
    if m.ok {
      CleanSmooth(allowed, m.clock, shapes, false);
      var (_, end) := CleanRun(allowed, m.clock, shapes, false);
      SmoothSplit(allowed, start, start + |requests|, end);
      SmoothSplit(allowed, start + |requests|, m.clock, end);
    } else {
      UndoSmooth(allowed, m.clock, shapes);
      var (undone, next, left) := UndoRun(allowed, m.clock, shapes);
      CleanSmooth(allowed, next, left, !undone);
      var (_, end) := CleanRun(allowed, next, left, !undone);
      SmoothSplit(allowed, m.clock, next, end);
    }
  }

  // ---------- How many operations there are ----------

  function One(b: bool): nat {
    if b then 1 else 0
  }

  /** Undoing takes one operation for every installed output and one for every backup in use. */
  function Undos(shapes: seq<Shape>): nat {
    if shapes == [] then 0
    else
      var s := shapes[|shapes| - 1];
      Undos(shapes[..|shapes| - 1]) + One(s.installed) + One(s.backedUp)
  }

  function Removals(shapes: seq<Shape>, preserve: bool): nat {
    if shapes == [] then 0
    else
      var s := shapes[|shapes| - 1];
      Removals(shapes[..|shapes| - 1], preserve) + One(s.staged) + One(s.backup && !preserve)
  }

  lemma {:induction false} UndoCount(allowed: nat -> bool, clock: nat, shapes: seq<Shape>)
    ensures UndoRun(allowed, clock, shapes).1 == clock + Undos(shapes)
    decreases |shapes|
  {
    if shapes != [] {
      var (_, next, _) := UndoOneRun(allowed, clock, shapes[|shapes| - 1]);
      UndoCount(allowed, next, shapes[..|shapes| - 1]);
    }
  }

  lemma {:induction false} CleanCount(allowed: nat -> bool, clock: nat, shapes: seq<Shape>, preserve: bool)
    ensures CleanRun(allowed, clock, shapes, preserve).1 == clock + Removals(shapes, preserve)
  {
    if shapes != [] { CleanCount(allowed, clock, shapes[..|shapes| - 1], preserve); }
  }

  lemma {:induction false} RemovalsPrepend(s: Shape, shapes: seq<Shape>)
    ensures Removals([s] + shapes, false) == One(s.staged) + One(s.backup) + Removals(shapes, false)
  {
    if shapes == [] {
      assert [s] + shapes == [s] && [s][..0] == [];
    } else {
      assert ([s] + shapes)[..|shapes|] == [s] + shapes[..|shapes| - 1];
      RemovalsPrepend(s, shapes[..|shapes| - 1]);
    }
  }

  /** Each output is written by one operation at most. */
  ghost predicate Ample(chunk: nat -> nat, requests: seq<Request>) {
    forall n: nat, i :: 0 <= i < |requests| ==> chunk(n) >= |requests[i].bytes|
  }

  /** For each output: making its directory; creating, writing and closing the staged file. */
  function StageOps(requests: seq<Request>, i: nat): nat
    requires i <= |requests|
    decreases |requests| - i
  {
    if i == |requests| then 0 else 3 + One(requests[i].bytes != []) + StageOps(requests, i + 1)
  }

  /** Checking its status; creating and closing a backup and moving the output there, if it existed; moving
      the staged file to it and setting its permissions; and, in the end, removing the backup. */
  function InstallOps(f0: Files, requests: seq<Request>, i: nat): nat
    requires i <= |requests|
    decreases |requests| - i
  {
    if i == |requests| then 0
    else (if Named(requests[i].output) in f0 then 7 else 3) + InstallOps(f0, requests, i + 1)
  }

  lemma {:induction false} StageCount(allowed: nat -> bool, chunk: nat -> nat, clock: nat, requests: seq<Request>, i: nat)
    requires Ample(chunk, requests) && i <= |requests| && StageRun(allowed, chunk, clock, requests, i).ok
    ensures StageRun(allowed, chunk, clock, requests, i).clock == clock + StageOps(requests, i)
    decreases |requests| - i
  {
    if i < |requests| {
      CreateCount(allowed, chunk, clock + 1, |requests[i].bytes|);
      hide CreateRun;
      StageCount(allowed, chunk, StageOneRun(allowed, chunk, clock, |requests[i].bytes|).clock, requests, i + 1);
    }
  }

  lemma {:induction false} CreateCount(allowed: nat -> bool, chunk: nat -> nat, clock: nat, size: nat)
    requires size == 0 || chunk(clock + 1) >= size
    ensures CreateRun(allowed, chunk, clock, size).ok ==>
              CreateRun(allowed, chunk, clock, size).clock == clock + 2 + One(size > 0)
  {
    FillStep(allowed, chunk, clock + 1, size);
    FillStep(allowed, chunk, clock + 2, 0);
  }

  lemma {:induction false} InstallOneCount(allowed: nat -> bool, chunk: nat -> nat, clock: nat, existed: bool)
    requires InstallOneRun(allowed, chunk, clock, existed).ok
    ensures InstallOneRun(allowed, chunk, clock, existed).clock == clock + if existed then 6 else 3
    ensures var s := InstallShape(allowed, chunk, clock, existed);
            !s.staged && s.backup == existed
  {
    hide CreateRun;
    CreateCount(allowed, chunk, clock + 1, 0);
  }

  lemma {:induction false} NoRemovals()
    ensures Removals([], false) == 0
  {
  }

  /** Undoing and cleaning leave no operation out, whichever of them fail. */
  lemma {:induction false} RollbackCount(allowed: nat -> bool, chunk: nat -> nat, start: nat, f0: Files,
                                         requests: seq<Request>)
    requires Accepted(requests, allowed, start) && !Installs(allowed, chunk, start, f0, requests)
    ensures var m := ForwardRun(allowed, chunk, start + |requests|, f0, requests);
            var shapes := ForwardShapes(allowed, chunk, start + |requests|, f0, requests);
            var (undone, next, left) := UndoRun(allowed, m.clock, shapes);
            FinalRun(allowed, chunk, start, f0, requests).1 == m.clock + Undos(shapes) + Removals(left, !undone)
  {
    hide ForwardRun, ForwardShapes, CleanRun, UndoRun, Removals, Undos;
    var m := ForwardRun(allowed, chunk, start + |requests|, f0, requests);
    var shapes := ForwardShapes(allowed, chunk, start + |requests|, f0, requests);
    UndoCount(allowed, m.clock, shapes);
    var (undone, next, left) := UndoRun(allowed, m.clock, shapes);
    CleanCount(allowed, next, left, !undone);
  }

  lemma {:induction false} InstallCount(allowed: nat -> bool, chunk: nat -> nat, clock: nat, f0: Files,
                                        requests: seq<Request>, i: nat)
    requires i <= |requests| && InstallRun(allowed, chunk, clock, f0, requests, i).ok
    ensures InstallRun(allowed, chunk, clock, f0, requests, i).clock +
            Removals(InstallShapes(allowed, chunk, clock, f0, requests, i), false) == clock + InstallOps(f0, requests, i)
    decreases |requests| - i
  {
    hide InstallOneRun, InstallShape, InstallRun, InstallShapes, Removals;
    if i == |requests| {
      InstallEnd(allowed, chunk, clock, f0, requests);
      NoRemovals();
    } else {
      var existed := Named(requests[i].output) in f0;
      InstallStep(allowed, chunk, clock, f0, requests, i);
      InstallOneCount(allowed, chunk, clock, existed);
      var m := InstallOneRun(allowed, chunk, clock, existed);
      InstallCount(allowed, chunk, m.clock, f0, requests, i + 1);
      InstallShapesStep(allowed, chunk, clock, f0, requests, i);
      RemovalsPrepend(InstallShape(allowed, chunk, clock, existed), InstallShapes(allowed, chunk, m.clock, f0, requests, i + 1));
    }
  }

  /** A transaction that installs everything makes every one of its operations: none is left out. */
  lemma {:induction false} CommitCount(allowed: nat -> bool, chunk: nat -> nat, start: nat, f0: Files,
                                       requests: seq<Request>)
    requires Installs(allowed, chunk, start, f0, requests) && Ample(chunk, requests)
    ensures FinalRun(allowed, chunk, start, f0, requests).1 ==
            start + |requests| + StageOps(requests, 0) + InstallOps(f0, requests, 0)
  {
    hide StageRun, InstallRun, InstallShapes, CleanRun, UndoRun, Ample, Removals, StageOps, InstallOps;
    StageCount(allowed, chunk, start + |requests|, requests, 0);
    var m := StageRun(allowed, chunk, start + |requests|, requests, 0);
    InstallCount(allowed, chunk, m.clock, f0, requests, 0);
    CleanCount(allowed, InstallRun(allowed, chunk, m.clock, f0, requests, 0).clock,
               InstallShapes(allowed, chunk, m.clock, f0, requests, 0), false);
  }

  lemma {:induction false} AcceptedSmooth(allowed: nat -> bool, start: nat, requests: seq<Request>)
    requires Accepted(requests, allowed, start)
    ensures Smooth(allowed, start, start + |requests|)
  {
  }

  /** Started at an operation number on some files, the transaction leaves a stray. */
  predicate Stranded(allowed: nat -> bool, chunk: nat -> nat, start: nat, f0: Files, requests: seq<Request>) {
    Accepted(requests, allowed, start) && ForwardRun(allowed, chunk, start + |requests|, f0, requests).stray
  }

  /** Started at an operation number on some files, the transaction puts every output in its place. */
  predicate Installs(allowed: nat -> bool, chunk: nat -> nat, start: nat, f0: Files, requests: seq<Request>) {
    Accepted(requests, allowed, start) && ForwardRun(allowed, chunk, start + |requests|, f0, requests).ok
  }

  lemma {:induction false} FillStep(allowed: nat -> bool, chunk: nat -> nat, clock: nat, left: nat)
    ensures FillRun(allowed, chunk, clock, left) ==
            if left == 0 then (allowed(clock), clock + 1)
            else
              var taken := if allowed(clock) then Least(chunk(clock), left) else 0;
              if taken == 0 then (false, clock + 1) else FillRun(allowed, chunk, clock + 1, left - taken)
  {
  }

  lemma {:induction false} FillStops(allowed: nat -> bool, chunk: nat -> nat, clock: nat, left: nat)
    ensures var (filled, next) := FillRun(allowed, chunk, clock, left);
            next > clock && (!filled ==> !allowed(next - 1) || chunk(next - 1) == 0)
    decreases left
  {
    if left > 0 && allowed(clock) && chunk(clock) > 0 {
      FillStops(allowed, chunk, clock + 1, left - Least(chunk(clock), left));
    }
  }

  lemma {:induction false} StageStep(allowed: nat -> bool, chunk: nat -> nat, clock: nat, requests: seq<Request>,
                                     i: nat)
    requires i < |requests|
    ensures var m := if allowed(clock) then CreateRun(allowed, chunk, clock + 1, |requests[i].bytes|)
                     else Made(false, false, clock + 1);
            m == StageOneRun(allowed, chunk, clock, |requests[i].bytes|) &&
            StageRun(allowed, chunk, clock, requests, i) ==
            if m.ok then StageRun(allowed, chunk, m.clock, requests, i + 1) else m
  {
    hide CreateRun;
  }

  lemma {:induction false} StageShapesStep(allowed: nat -> bool, chunk: nat -> nat, clock: nat, requests: seq<Request>,
                                           i: nat)
    requires i < |requests|
    ensures var m := StageOneRun(allowed, chunk, clock, |requests[i].bytes|);
            Repeat(i, STAGED) + StageShapes(allowed, chunk, clock, requests, i) ==
            if m.ok then Repeat(i + 1, STAGED) + StageShapes(allowed, chunk, m.clock, requests, i + 1)
            else Repeat(i, STAGED) + Repeat(|requests| - i, UNTOUCHED)
  {
    hide StageOneRun;
  }

  ghost predicate StagedSoFar(ws: seq<PendingWrite>, i: nat) {
    forall j :: 0 <= j < |ws| ==>
      (ws[j].staged.Some? <==> j < i) && ws[j].backup.None? && !ws[j].backedUp && !ws[j].installed
  }

  lemma {:induction false} StagedNone(ws: seq<PendingWrite>)
    requires forall i :: 0 <= i < |ws| ==> ws[i].staged.None? && ws[i].backup.None? && !ws[i].backedUp && !ws[i].installed
    ensures StagedSoFar(ws, 0)
  {
  }

  lemma {:induction false} StagedNext(ws: seq<PendingWrite>, i: nat, w: PendingWrite)
    requires i < |ws| && StagedSoFar(ws, i) && w == ws[i].(staged := w.staged)
    ensures StagedSoFar(ws[i := w], if w.staged.Some? then i + 1 else i)
  {
  }

  /** If the first request cannot be staged, none is. */
  lemma {:induction false} FirstFails(allowed: nat -> bool, chunk: nat -> nat, clock: nat, requests: seq<Request>,
                                      ws: seq<PendingWrite>)
    requires |requests| > 0 && !StageOneRun(allowed, chunk, clock, |requests[0].bytes|).ok
    requires Shapes(ws) == StageShapes(allowed, chunk, clock, requests, 0)
    ensures forall i :: 0 <= i < |ws| ==>
              ws[i].staged.None? && ws[i].backup.None? && !ws[i].backedUp && !ws[i].installed
  {
    hide StageOneRun;
    forall i | 0 <= i < |ws| ensures ShapeOf(ws[i]) == UNTOUCHED { assert Shapes(ws)[i] == UNTOUCHED; }
  }

  /** The shapes of writes of which the first i are staged. */
  lemma {:induction false} ShapesStaged(ws: seq<PendingWrite>, i: nat)
    requires i <= |ws| && StagedSoFar(ws, i)
    ensures Shapes(ws) == Repeat(i, STAGED) + Repeat(|ws| - i, UNTOUCHED)
    ensures forall j :: 0 <= j < |ws| ==> ws[j].backup.None? && !ws[j].backedUp && !ws[j].installed
    ensures forall j :: 0 <= j < |ws| ==> (ws[j].staged.Some? <==> j < i)
  {
  }

  lemma {:induction false} InstallStep(allowed: nat -> bool, chunk: nat -> nat, clock: nat, f0: Files,
                                       requests: seq<Request>, i: nat)
    requires i < |requests|
    ensures var m := InstallOneRun(allowed, chunk, clock, Named(requests[i].output) in f0);
            InstallRun(allowed, chunk, clock, f0, requests, i) ==
            if m.ok then InstallRun(allowed, chunk, m.clock, f0, requests, i + 1) else m
  {
    hide InstallOneRun;
  }

  lemma {:induction false} InstallShapesStep(allowed: nat -> bool, chunk: nat -> nat, clock: nat, f0: Files,
                                             requests: seq<Request>, i: nat)
    requires i < |requests|
    ensures var existed := Named(requests[i].output) in f0;
            var m := InstallOneRun(allowed, chunk, clock, existed);
            InstallShapes(allowed, chunk, clock, f0, requests, i) ==
            [InstallShape(allowed, chunk, clock, existed)] +
            if m.ok then InstallShapes(allowed, chunk, m.clock, f0, requests, i + 1)
            else Repeat(|requests| - i - 1, STAGED)
  {
    hide InstallOneRun, InstallShape;
  }

  /** Shapes so far, followed by those still to come. */
  ghost predicate Agree(ws: seq<PendingWrite>, i: nat, rest: seq<Shape>, all: seq<Shape>) {
    i <= |ws| && Shapes(ws)[..i] + rest == all
  }

  lemma {:induction false} AgreeStart(ws: seq<PendingWrite>, all: seq<Shape>)
    ensures Agree(ws, 0, all, all)
  {
  }

  lemma {:induction false} InstallEnd(allowed: nat -> bool, chunk: nat -> nat, clock: nat, f0: Files,
                                      requests: seq<Request>)
    ensures InstallRun(allowed, chunk, clock, f0, requests, |requests|) == Made(true, false, clock)
    ensures InstallShapes(allowed, chunk, clock, f0, requests, |requests|) == [] == Repeat(0, STAGED)
  {
  }

  lemma {:induction false} AgreeStep(ws: seq<PendingWrite>, i: nat, w: PendingWrite, rest: seq<Shape>, all: seq<Shape>)
    requires i < |ws| && Agree(ws, i, [ShapeOf(w)] + rest, all)
    ensures Agree(ws[i := w], i + 1, rest, all)
  {
    hide ShapeOf;
    assert Shapes(ws[i := w])[..i + 1] == Shapes(ws)[..i] + [ShapeOf(w)];
    assert Shapes(ws)[..i] + ([ShapeOf(w)] + rest) == (Shapes(ws)[..i] + [ShapeOf(w)]) + rest;
  }

  lemma {:induction false} AgreeEnd(ws: seq<PendingWrite>, i: nat, rest: seq<Shape>, all: seq<Shape>)
    requires Agree(ws, i, rest, all) && rest == Repeat(|ws| - i, STAGED) && NotInstalledFrom(ws, i)
    ensures Shapes(ws) == all
  {
    assert Shapes(ws) == Shapes(ws)[..i] + rest;
  }

  lemma {:induction false} UndoStep(allowed: nat -> bool, clock: nat, shapes: seq<Shape>, i: nat)
    requires i < |shapes|
    ensures var (ok, next, last) := UndoOneRun(allowed, clock, shapes[i]);
            var (others, end, front) := UndoRun(allowed, next, shapes[..i]);
            UndoRun(allowed, clock, shapes[..i + 1]) == (ok && others, end, front + [last])
  {
    hide UndoOneRun;
    assert shapes[..i + 1][..i] == shapes[..i];
  }

  lemma {:induction false} CleanStep(allowed: nat -> bool, clock: nat, shapes: seq<Shape>, preserve: bool, i: nat)
    requires i < |shapes|
    ensures var (others, next) := CleanRun(allowed, clock, shapes[..i], preserve);
            var (ok, end) := CleanOneRun(allowed, next, shapes[i], preserve);
            CleanRun(allowed, clock, shapes[..i + 1], preserve) == (others && ok, end)
  {
    hide CleanOneRun;
    assert shapes[..i + 1][..i] == shapes[..i];
  }

  lemma {:induction false} StageEnd(allowed: nat -> bool, chunk: nat -> nat, clock: nat, requests: seq<Request>)
    ensures StageRun(allowed, chunk, clock, requests, |requests|) == Made(true, false, clock)
    ensures StageShapes(allowed, chunk, clock, requests, |requests|) == [] == Repeat(0, UNTOUCHED)
  {
  }

  /** No operation that comes right after one that failed or wrote nothing fails. */
  ghost predicate Recovers(allowed: nat -> bool, chunk: nat -> nat) {
    forall n: nat :: allowed(n + 1) || (allowed(n) && chunk(n) > 0)
  }

  lemma {:induction false} CreateStrandless(allowed: nat -> bool, chunk: nat -> nat, clock: nat, size: nat)
    requires Recovers(allowed, chunk)
    ensures !CreateRun(allowed, chunk, clock, size).stray
  {
    FillStops(allowed, chunk, clock + 1, size);
    var (filled, next) := FillRun(allowed, chunk, clock + 1, size);
    assert allowed((next - 1) + 1) || (allowed(next - 1) && chunk(next - 1) > 0);
  }

  lemma {:induction false} StageStrandless(allowed: nat -> bool, chunk: nat -> nat, clock: nat, requests: seq<Request>,
                                           i: nat)
    requires Recovers(allowed, chunk) && i <= |requests|
    ensures !StageRun(allowed, chunk, clock, requests, i).stray
    decreases |requests| - i
  {
    hide CreateRun;
    if i < |requests| {
      CreateStrandless(allowed, chunk, clock + 1, |requests[i].bytes|);
      StageStrandless(allowed, chunk, StageOneRun(allowed, chunk, clock, |requests[i].bytes|).clock, requests, i + 1);
    }
  }

  lemma {:induction false} InstallStrandless(allowed: nat -> bool, chunk: nat -> nat, clock: nat, f0: Files,
                                             requests: seq<Request>, i: nat)
    requires Recovers(allowed, chunk) && i <= |requests|
    ensures !InstallRun(allowed, chunk, clock, f0, requests, i).stray
    decreases |requests| - i
  {
    hide CreateRun;
    if i < |requests| {
      CreateStrandless(allowed, chunk, clock + 1, 0);
      var m := InstallOneRun(allowed, chunk, clock, Named(requests[i].output) in f0);
      InstallStrandless(allowed, chunk, m.clock, f0, requests, i + 1);
    }
  }

  /** Failures that never come twice in a row leave no stray, whatever the files and the requests. */
  lemma {:induction false} NeverStranded(allowed: nat -> bool, chunk: nat -> nat, start: nat, f0: Files,
                                         requests: seq<Request>)
    requires Recovers(allowed, chunk)
    ensures !Stranded(allowed, chunk, start, f0, requests)
  {
    hide StageRun, InstallRun, Recovers;
    StageStrandless(allowed, chunk, start + |requests|, requests, 0);
    InstallStrandless(allowed, chunk, StageRun(allowed, chunk, start + |requests|, requests, 0).clock, f0, requests, 0);
  }

  /** Every operation succeeds. */
  ghost predicate Willing(allowed: nat -> bool, chunk: nat -> nat) {
    forall n: nat :: allowed(n) && chunk(n) > 0
  }

  function Least(a: nat, b: nat): nat {
    if a < b then a else b
  }

  /** While a temporary is being created, at most that file is added. */
  ghost predicate CreateState(before: Files, d: Files, p: Path) {
    d - {p} == before
  }

  lemma {:induction false} AddRemove(before: Files, p: Path, bytes: Bytes)
    requires p !in before
    ensures before[p := bytes] - {p} == before && CreateState(before, before[p := bytes], p)
  {
  }

  lemma {:induction false} NothingToRemove(before: Files, p: Path)
    requires p !in before
    ensures CreateState(before, before, p)
  {
  }

  // ---------- What a write may touch ----------

  /** The places a write works on: its output, and temporaries newer than the transaction beside it. */
  predicate Around(p: Path, name: string, s0: nat) {
    p == Named(name) || (p.Temp? && p.beside == name && p.serial >= s0)
  }

  predicate AroundAny(p: Path, names: seq<string>, s0: nat) {
    match p
    case Named(n) => n in names
    case Temp(_, b, s) => b in names && s >= s0
  }

  ghost predicate SameAt(d: Files, d': Files, p: Path) {
    (p in d <==> p in d') && (p in d ==> d[p] == d'[p])
  }

  ghost predicate Local(d: Files, d': Files, name: string, s0: nat) {
    forall p :: !Around(p, name, s0) ==> SameAt(d, d', p)
  }

  lemma {:induction false} LocalTransitive(a: Files, b: Files, c: Files, name: string, s0: nat)
    requires Local(a, b, name, s0) && Local(b, c, name, s0)
    ensures Local(a, c, name, s0)
  {
    forall p | !Around(p, name, s0) ensures SameAt(a, c, p) {
      assert SameAt(a, b, p) && SameAt(b, c, p);
    }
  }

  // ---------- One write ----------

  datatype PendingWrite = PendingWrite(
    output: string, bytes: Bytes, staged: Option<Path>, backup: Option<Path>, backedUp: bool, installed: bool)

  ghost predicate Original(d: Files, f0: Files, name: string) {
    SameAt(f0, d, Named(name))
  }

  ghost predicate IsNew(d: Files, name: string, bytes: Bytes) {
    Named(name) in d && d[Named(name)] == bytes
  }

  ghost predicate HoldsOriginal(d: Files, f0: Files, name: string, n: nat) {
    Named(name) in f0 && Temp(Backup, name, n) in d && d[Temp(Backup, name, n)] == f0[Named(name)]
  }

  /** The original bytes of an output that existed are in their place or in a backup of it. */
  ghost predicate SecuredFor(d: Files, f0: Files, name: string, s0: nat) {
    Named(name) in f0 ==>
      Original(d, f0, name) || exists n :: n >= s0 && HoldsOriginal(d, f0, name, n)
  }

  predicate TempOf(p: Option<Path>, role: Role, name: string, s0: nat) {
    p.Some? ==> p.value.Temp? && p.value.role == role && p.value.beside == name && p.value.serial >= s0
  }

  /** The temporary files of a write and the stray are different files. */
  ghost predicate Temporaries(w: PendingWrite, s0: nat, stray: Option<Path>) {
    && TempOf(w.staged, Stage, w.output, s0) && TempOf(w.backup, Backup, w.output, s0)
    && (stray.Some? ==> stray != w.staged && stray != w.backup)
  }

  /** Nothing temporary around a write but its two temporaries and the stray. */
  ghost predicate Accounted(d: Files, w: PendingWrite, s0: nat, stray: Option<Path>) {
    forall p :: p in d && p.Temp? && Around(p, w.output, s0) ==> Some(p) == w.staged || Some(p) == w.backup || Some(p) == stray
  }

  /** The contents of a write's temporaries on its way forward. */
  ghost predicate Present(d: Files, f0: Files, w: PendingWrite) {
    && (w.staged.Some? ==> w.staged.value in d && d[w.staged.value] == w.bytes)
    && (w.backup.Some? ==> w.backup.value in d)
    && (w.backedUp ==> w.backup.Some? && Named(w.output) in f0 && d[w.backup.value] == f0[Named(w.output)])
  }

  /** How far a write got, and what its output then holds. */
  ghost predicate Progress(d: Files, f0: Files, w: PendingWrite) {
    if w.installed then
      w.staged.None? && IsNew(d, w.output, w.bytes) && (Named(w.output) in f0 ==> w.backedUp)
    else if w.backedUp then
      Named(w.output) !in d
    else
      Original(d, f0, w.output)
  }

  ghost predicate Forward(d: Files, f0: Files, w: PendingWrite, s0: nat, stray: Option<Path>) {
    Temporaries(w, s0, stray) && Accounted(d, w, s0, stray) && Present(d, f0, w) && Progress(d, f0, w)
  }

  lemma {:induction false} ForwardSecured(d: Files, f0: Files, w: PendingWrite, s0: nat, stray: Option<Path>)
    requires Forward(d, f0, w, s0, stray)
    ensures SecuredFor(d, f0, w.output, s0)
  {
    if w.backedUp {
      assert HoldsOriginal(d, f0, w.output, w.backup.value.serial);
    }
  }

  /** What happens around one output leaves another output's write as it is. */
  lemma {:induction false} ForwardFrame(d: Files, d': Files, f0: Files, w: PendingWrite, s0: nat, stray: Option<Path>,
                                        name: string)
    requires Forward(d, f0, w, s0, stray) && Local(d, d', name, s0) && name != w.output
    ensures Forward(d', f0, w, s0, stray)
  {
    forall p | Around(p, w.output, s0) ensures SameAt(d, d', p) { assert !Around(p, name, s0); }
    assert SameAt(d, d', Named(w.output));
    if w.staged.Some? { assert SameAt(d, d', w.staged.value); }
    if w.backup.Some? { assert SameAt(d, d', w.backup.value); }
  }

  /** A stray beside one output is none of the other writes' business. */
  lemma {:induction false} ForwardStray(d: Files, f0: Files, w: PendingWrite, s0: nat, stray: Path)
    requires Forward(d, f0, w, s0, None) && stray.Temp? && stray.beside != w.output
    ensures Forward(d, f0, w, s0, Some(stray))
  {
  }

  lemma {:induction false} SecuredFrame(d: Files, d': Files, f0: Files, s0: nat, name: string, other: string)
    requires SecuredFor(d, f0, other, s0) && Local(d, d', name, s0) && name != other
    ensures SecuredFor(d', f0, other, s0)
  {
    assert SameAt(d, d', Named(other));
    if Named(other) in f0 && !Original(d, f0, other) {
      var n :| n >= s0 && HoldsOriginal(d, f0, other, n);
      assert SameAt(d, d', Temp(Backup, other, n));
      assert HoldsOriginal(d', f0, other, n);
    }
  }

  /** The states recorded since a point of the log stay around one output and keep its original bytes. */
  ghost predicate Recorded(log: seq<Files>, from: nat, before: Files, f0: Files, name: string, s0: nat) {
    forall k :: from <= k < |log| ==> Local(before, log[k], name, s0) && SecuredFor(log[k], f0, name, s0)
  }

  lemma {:induction false} CreateLocal(before: Files, d: Files, p: Path, name: string, s0: nat)
    requires CreateState(before, d, p) && Around(p, name, s0)
    ensures Local(before, d, name, s0)
  {
    forall q | !Around(q, name, s0) ensures SameAt(before, d, q) {
      assert q in d - {p} <==> q in before;
    }
  }

  lemma {:induction false} CreateSecured(before: Files, d: Files, p: Path, f0: Files, name: string, s0: nat)
    requires CreateState(before, d, p) && p !in before && p.Temp? && SecuredFor(before, f0, name, s0)
    ensures SecuredFor(d, f0, name, s0)
  {
    assert SameAt(before, d, Named(name)) by {
      assert Named(name) in d - {p} <==> Named(name) in before;
    }
    if Named(name) in f0 && !Original(before, f0, name) {
      var n :| n >= s0 && HoldsOriginal(before, f0, name, n);
      var b := Temp(Backup, name, n);
      assert b in d - {p} && (d - {p})[b] == before[b];
      assert HoldsOriginal(d, f0, name, n);
    }
  }

  lemma {:induction false} CreateRecorded(log: seq<Files>, from: nat, before: Files, p: Path, f0: Files, name: string,
                                          s0: nat)
    requires forall k :: from <= k < |log| ==> CreateState(before, log[k], p)
    requires p !in before && p.Temp? && Around(p, name, s0) && SecuredFor(before, f0, name, s0)
    ensures Recorded(log, from, before, f0, name, s0)
  {
    hide CreateState, Around, Local, SecuredFor;
    forall k | from <= k < |log|
      ensures Local(before, log[k], name, s0) && SecuredFor(log[k], f0, name, s0)
    {
      CreateLocal(before, log[k], p, name, s0);
      CreateSecured(before, log[k], p, f0, name, s0);
    }
  }

  lemma {:induction false} RecordedSnoc(log: seq<Files>, d: Files, from: nat, before: Files, f0: Files, name: string,
                                        s0: nat)
    requires Recorded(log, from, before, f0, name, s0) && Local(before, d, name, s0) && SecuredFor(d, f0, name, s0)
    ensures Recorded(log + [d], from, before, f0, name, s0)
  {
    hide Local, SecuredFor;
  }

  // ---------- The steps of one write ----------

  /** Moves the output into a backup of it. */
  method BackUp(fs: FileSystem, w: PendingWrite, ghost f0: Files, s0: nat)
    returns (w': PendingWrite, ok: bool, ghost stray: Option<Path>)
    requires fs.Valid() && s0 <= fs.sequence
    requires Forward(fs.files, f0, w, s0, None) && !w.backedUp && !w.installed && w.backup.None?
    requires Named(w.output) in fs.files
    modifies fs
    ensures fs.Valid() && s0 <= fs.sequence && old(fs.log) <= fs.log
    ensures Recorded(fs.log, |old(fs.log)|, old(fs.files), f0, w.output, s0)
    ensures Local(old(fs.files), fs.files, w.output, s0)
    ensures Forward(fs.files, f0, w', s0, stray) && Kept(fs.files, stray, w.output, s0)
    ensures w'.output == w.output && w'.bytes == w.bytes && w'.staged == w.staged && !w'.installed
    ensures ok ==> stray.None? && w'.backedUp
    ensures Made(ok, stray.Some?, fs.clock) == BackUpRun(fs.allowed, fs.chunk, old(fs.clock))
    ensures w'.backedUp == ok && w'.backup.Some? == CreateRun(fs.allowed, fs.chunk, old(fs.clock), 0).ok
    ensures Willing(fs.allowed, fs.chunk) ==> ok
  {
    ghost var before, start := fs.files, |fs.log|;
    var backup;
    backup, stray := fs.Create(w.output, [], Backup);
    ghost var p := Temp(Backup, w.output, old(fs.sequence));
    CreateRecorded(fs.log, start, before, p, f0, w.output, s0);
    if backup.None? {
      BackUpRefused(before, fs.files, f0, w, s0, stray);
      return w, false, stray;
    }
    ghost var middle, log1 := fs.files, fs.log;
    ok := fs.Rename(Named(w.output), backup.value);
    w' := w.(backup := backup, backedUp := ok);
    BackUpRenamed(before, middle, fs.files, f0, w, s0, p, ok);
    RecordedSnoc(log1, fs.files, start, before, f0, w.output, s0);
  }

  /** A stray is a new temporary around the output, and still there. */
  ghost predicate Kept(d: Files, stray: Option<Path>, name: string, s0: nat) {
    stray.Some? ==> stray.value in d && stray.value.Temp? && Around(stray.value, name, s0)
  }

  lemma {:induction false} BackUpRefused(before: Files, d: Files, f0: Files, w: PendingWrite, s0: nat,
                                         stray: Option<Path>)
    requires Forward(before, f0, w, s0, None) && w.backup.None?
    requires if stray.Some?
             then CreateState(before, d, stray.value) && stray.value !in before && stray.value.Temp? &&
                  stray.value.role == Backup && Around(stray.value, w.output, s0)
             else d == before
    ensures Local(before, d, w.output, s0) && Forward(d, f0, w, s0, stray)
  {
    if stray.Some? {
      CreateLocal(before, d, stray.value, w.output, s0);
      assert forall q :: q != stray.value ==> SameAt(before, d, q) by {
        forall q | q != stray.value ensures SameAt(before, d, q) { assert q in d - {stray.value} <==> q in before; }
      }
      assert SameAt(before, d, Named(w.output));
      if w.staged.Some? { assert SameAt(before, d, w.staged.value); }
    }
  }

  lemma {:induction false} BackUpRenamed(before: Files, middle: Files, d: Files, f0: Files, w: PendingWrite, s0: nat,
                                         p: Path, ok: bool)
    requires Forward(before, f0, w, s0, None) && !w.backedUp && !w.installed && w.backup.None?
    requires Named(w.output) in before
    requires p.Temp? && p == Temp(Backup, w.output, p.serial) && p.serial >= s0 && p !in before
    requires middle == before[p := []]
    requires d == if ok then (middle - {Named(w.output)})[p := middle[Named(w.output)]] else middle
    ensures Local(before, d, w.output, s0) && Forward(d, f0, w.(backup := Some(p), backedUp := ok), s0, None)
    ensures SecuredFor(d, f0, w.output, s0)
  {
    ForwardSecured(d, f0, w.(backup := Some(p), backedUp := ok), s0, None);
  }

  lemma {:induction false} SameLocal(d: Files, log: seq<Files>, f0: Files, w: PendingWrite, s0: nat)
    requires Forward(d, f0, w, s0, None)
    ensures Local(d, d, w.output, s0) && SecuredFor(d, f0, w.output, s0)
    ensures Recorded(log, |log|, d, f0, w.output, s0)
  {
    ForwardSecured(d, f0, w, s0, None);
  }

  /** Puts one staged file in the place of its output, which is backed up first if it exists. */
  method InstallOne(fs: FileSystem, w: PendingWrite, ghost f0: Files, s0: nat)
    returns (w': PendingWrite, ok: bool, ghost stray: Option<Path>)
    requires fs.Valid() && s0 <= fs.sequence
    requires Forward(fs.files, f0, w, s0, None) && !w.backedUp && !w.installed && w.backup.None? && w.staged.Some?
    modifies fs
    ensures fs.Valid() && s0 <= fs.sequence && old(fs.log) <= fs.log
    ensures Recorded(fs.log, |old(fs.log)|, old(fs.files), f0, w.output, s0)
    ensures Local(old(fs.files), fs.files, w.output, s0)
    ensures Forward(fs.files, f0, w', s0, stray) && Kept(fs.files, stray, w.output, s0)
    ensures w'.output == w.output && w'.bytes == w.bytes
    ensures ok ==> stray.None? && w'.installed
    ensures Made(ok, stray.Some?, fs.clock) ==
            InstallOneRun(fs.allowed, fs.chunk, old(fs.clock), Named(w.output) in f0)
    ensures ShapeOf(w') == InstallShape(fs.allowed, fs.chunk, old(fs.clock), Named(w.output) in f0)
    ensures Willing(fs.allowed, fs.chunk) ==> ok
  {
    hide Local, Recorded, SecuredFor, Accounted, Progress, CreateRun;
    ghost var before, start := fs.files, |fs.log|;
    SameLocal(before, fs.log, f0, w, s0);
    w', stray := w, None;
    var known := fs.Attempt();
    if !known { return w, false, None; }
    OriginalExists(before, f0, w, s0);
    if Named(w.output) in fs.files {
      w', ok, stray := BackUp(fs, w, f0, s0);
      if !ok { return; }
    }
    ghost var middle, log1 := fs.files, fs.log;
    ok := fs.Rename(w.staged.value, Named(w.output));
    ghost var w1 := w';
    if ok { w' := w'.(staged := None, installed := true); }
    InstallRenamed(before, middle, fs.files, f0, w1, s0, ok);
    RecordedSnoc(log1, fs.files, start, before, f0, w.output, s0);
    if ok { ok := fs.Attempt(); }
  }

  lemma {:induction false} InstallRenamed(before: Files, middle: Files, d: Files, f0: Files, w: PendingWrite, s0: nat,
                                          ok: bool)
    requires Forward(middle, f0, w, s0, None) && !w.installed && w.staged.Some? && Local(before, middle, w.output, s0)
    requires !w.backedUp ==> Named(w.output) !in middle
    requires d == if ok then (middle - {w.staged.value})[Named(w.output) := middle[w.staged.value]] else middle
    ensures Local(before, d, w.output, s0)
    ensures Forward(d, f0, if ok then w.(staged := None, installed := true) else w, s0, None)
    ensures SecuredFor(d, f0, w.output, s0)
  {
    assert Local(middle, d, w.output, s0);
    LocalTransitive(before, middle, d, w.output, s0);
    ForwardSecured(d, f0, if ok then w.(staged := None, installed := true) else w, s0, None);
  }

  /** A write after its part of the rollback. */
  ghost predicate Undone(d: Files, f0: Files, w: PendingWrite, s0: nat, stray: Option<Path>) {
    Temporaries(w, s0, stray) && Accounted(d, w, s0, stray) && SecuredFor(d, f0, w.output, s0)
  }

  /** Undoes one write: removes the new output, moves the backup back. */
  method UndoOne(fs: FileSystem, w: PendingWrite, ghost f0: Files, s0: nat, ghost stray: Option<Path>)
    returns (w': PendingWrite, ok: bool)
    requires fs.Valid() && Forward(fs.files, f0, w, s0, stray)
    modifies fs
    ensures fs.Valid() && fs.sequence == old(fs.sequence) && old(fs.log) <= fs.log
    ensures Recorded(fs.log, |old(fs.log)|, old(fs.files), f0, w.output, s0)
    ensures Local(old(fs.files), fs.files, w.output, s0)
    ensures Undone(fs.files, f0, w', s0, stray)
    ensures stray.Some? && stray.value.Temp? && stray.value in old(fs.files) ==> stray.value in fs.files
    ensures w'.output == w.output && w'.staged == w.staged
    ensures ok ==> Original(fs.files, f0, w.output)
    ensures !w.installed && !w.backedUp ==> ok && w' == w
    ensures (ok, fs.clock, ShapeOf(w')) == UndoOneRun(fs.allowed, old(fs.clock), ShapeOf(w))
  {
    ghost var before, start := fs.files, |fs.log|;
    w', ok := w, true;
    ForwardSecured(before, f0, w, s0, stray);
    if w.installed {
      ok := fs.Remove(Named(w.output));
      UndoRemoved(before, fs.files, f0, w, s0, stray, ok);
    }
    if w.backedUp {
      ghost var middle := fs.files;
      var restored := fs.Rename(w.backup.value, Named(w.output));
      if restored { w' := w'.(backup := None); }
      ok := ok && restored;
      UndoRenamed(before, middle, fs.files, f0, w, s0, stray, restored);
    }
  }

  lemma {:induction false} UndoRemoved(before: Files, d: Files, f0: Files, w: PendingWrite, s0: nat,
                                       stray: Option<Path>, ok: bool)
    requires Forward(before, f0, w, s0, stray) && w.installed
    requires d == if ok then before - {Named(w.output)} else before
    ensures Local(before, d, w.output, s0) && Undone(d, f0, w, s0, stray)
    ensures !w.backedUp && ok ==> Original(d, f0, w.output)
  {
    if w.backedUp {
      assert HoldsOriginal(d, f0, w.output, w.backup.value.serial);
    }
  }

  lemma {:induction false} UndoRenamed(before: Files, middle: Files, d: Files, f0: Files, w: PendingWrite, s0: nat,
                                       stray: Option<Path>, ok: bool)
    requires Forward(before, f0, w, s0, stray) && w.backedUp
    requires middle == before || middle == before - {Named(w.output)}
    requires d == if ok then (middle - {w.backup.value})[Named(w.output) := middle[w.backup.value]] else middle
    ensures Local(before, d, w.output, s0) && Undone(d, f0, if ok then w.(backup := None) else w, s0, stray)
    ensures ok ==> Original(d, f0, w.output)
  {
    if !ok {
      assert HoldsOriginal(d, f0, w.output, w.backup.value.serial);
    }
  }

  // ---------- All the writes ----------

  ghost predicate Elsewhere(f0: Files, d: Files, names: seq<string>, s0: nat) {
    forall p :: !AroundAny(p, names, s0) ==> SameAt(f0, d, p)
  }

  /** No file beside the outputs changed, and no original bytes are lost. */
  ghost predicate Safe(f0: Files, d: Files, names: seq<string>, s0: nat) {
    Elsewhere(f0, d, names, s0) && forall i :: 0 <= i < |names| ==> SecuredFor(d, f0, names[i], s0)
  }

  ghost predicate LogSafe(log: seq<Files>, from: nat, f0: Files, names: seq<string>, s0: nat) {
    forall k :: from <= k < |log| ==> Safe(f0, log[k], names, s0)
  }

  lemma {:induction false} SafeStep(f0: Files, d: Files, d': Files, names: seq<string>, i: nat, s0: nat)
    requires Safe(f0, d, names, s0) && i < |names|
    requires Local(d, d', names[i], s0) && SecuredFor(d', f0, names[i], s0)
    ensures Safe(f0, d', names, s0)
  {
    hide SecuredFor;
    forall j | 0 <= j < |names| ensures SecuredFor(d', f0, names[j], s0) {
      if names[j] != names[i] { SecuredFrame(d, d', f0, s0, names[i], names[j]); }
    }
    forall p | !AroundAny(p, names, s0) ensures SameAt(f0, d', p) {
      assert !Around(p, names[i], s0);
      assert SameAt(f0, d, p) && SameAt(d, d', p);
    }
  }

  lemma {:induction false} LogSafeStep(log: seq<Files>, log': seq<Files>, from: nat, before: Files, f0: Files,
                                       names: seq<string>, i: nat, s0: nat)
    requires from <= |log| && log <= log' && LogSafe(log, from, f0, names, s0)
    requires Safe(f0, before, names, s0) && i < |names| && Recorded(log', |log|, before, f0, names[i], s0)
    ensures LogSafe(log', from, f0, names, s0)
  {
    hide Safe, Local, SecuredFor;
    forall k | from <= k < |log'| ensures Safe(f0, log'[k], names, s0) {
      if k < |log| {
        assert log'[k] == log[k];
      } else {
        SafeStep(f0, before, log'[k], names, i, s0);
      }
    }
  }

  ghost predicate Matches(ws: seq<PendingWrite>, requests: seq<Request>) {
    |ws| == |requests| && forall i :: 0 <= i < |ws| ==> ws[i].output == requests[i].output && ws[i].bytes == requests[i].bytes
  }

  datatype Request = Request(output: string, bytes: Bytes)

  function Names(requests: seq<Request>): (r: seq<string>)
    ensures |r| == |requests| && forall i :: 0 <= i < |r| ==> r[i] == requests[i].output
  {
    seq(|requests|, i requires 0 <= i < |requests| => requests[i].output)
  }

  ghost predicate AllForward(d: Files, f0: Files, ws: seq<PendingWrite>, s0: nat, stray: Option<Path>) {
    forall i :: 0 <= i < |ws| ==> Forward(d, f0, ws[i], s0, stray)
  }

  ghost predicate DistinctOutputs(ws: seq<PendingWrite>) {
    forall i, j :: 0 <= i < j < |ws| ==> ws[i].output != ws[j].output
  }

  lemma {:induction false} AllForwardStep(d: Files, d': Files, f0: Files, ws: seq<PendingWrite>, i: nat,
                                          w: PendingWrite, s0: nat, stray: Option<Path>)
    requires AllForward(d, f0, ws, s0, None) && DistinctOutputs(ws) && i < |ws| && w.output == ws[i].output
    requires Local(d, d', w.output, s0) && Forward(d', f0, w, s0, stray) && Kept(d', stray, w.output, s0)
    ensures AllForward(d', f0, ws[i := w], s0, stray) && DistinctOutputs(ws[i := w])
  {
    hide Forward, Local;
    var ws' := ws[i := w];
    forall j | 0 <= j < |ws| ensures Forward(d', f0, ws'[j], s0, stray) {
      if j != i {
        ForwardFrame(d, d', f0, ws[j], s0, None, w.output);
        if stray.Some? { ForwardStray(d', f0, ws[j], s0, stray.value); }
      }
    }
  }

  lemma {:induction false} StageRecorded(log: seq<Files>, from: nat, before: Files, d: Files, f0: Files,
                                         w: PendingWrite, s0: nat, p: Path,
                      staged: Option<Path>, stray: Option<Path>)
    requires forall k :: from <= k < |log| ==> CreateState(before, log[k], p)
    requires Forward(before, f0, w, s0, None) && w.staged.None? && w.backup.None? && !w.backedUp && !w.installed
    requires p.Temp? && p == Temp(Stage, w.output, p.serial) && p.serial >= s0 && p !in before
    requires staged.Some? ==> staged == Some(p) && d == before[p := w.bytes] && stray.None?
    requires staged.None? && stray.None? ==> d == before
    requires stray.Some? ==> stray == Some(p) && p in d && CreateState(before, d, p)
    ensures Recorded(log, from, before, f0, w.output, s0)
    ensures Local(before, d, w.output, s0) && SecuredFor(d, f0, w.output, s0)
    ensures Forward(d, f0, w.(staged := staged), s0, stray) && Kept(d, stray, w.output, s0)
  {
    hide Recorded;
    ForwardSecured(before, f0, w, s0, None);
    CreateRecorded(log, from, before, p, f0, w.output, s0);
    assert CreateState(before, d, p);
    assert forall q :: q != p ==> SameAt(before, d, q) by {
      forall q | q != p ensures SameAt(before, d, q) { assert q in d - {p} <==> q in before; }
    }
    assert SameAt(before, d, Named(w.output));
    CreateSecured(before, d, p, f0, w.output, s0);
  }

  lemma {:induction false} EmptyLogSafe(log: seq<Files>, f0: Files, names: seq<string>, s0: nat)
    ensures LogSafe(log, |log|, f0, names, s0)
  {
  }

  lemma {:induction false} ForwardAt(d: Files, f0: Files, ws: seq<PendingWrite>, i: nat, s0: nat, stray: Option<Path>)
    requires AllForward(d, f0, ws, s0, stray) && i < |ws|
    ensures Forward(d, f0, ws[i], s0, stray)
  {
    hide Forward;
  }

  /** Makes the directory of one output and stages its new bytes there. */
  method StageOne(fs: FileSystem, w: PendingWrite, ghost f0: Files, s0: nat)
    returns (w': PendingWrite, ok: bool, ghost stray: Option<Path>)
    requires fs.Valid() && s0 <= fs.sequence && Forward(fs.files, f0, w, s0, None)
    requires w.staged.None? && w.backup.None? && !w.backedUp && !w.installed
    modifies fs
    ensures fs.Valid() && s0 <= fs.sequence && old(fs.log) <= fs.log
    ensures Recorded(fs.log, |old(fs.log)|, old(fs.files), f0, w.output, s0)
    ensures Local(old(fs.files), fs.files, w.output, s0) && SecuredFor(fs.files, f0, w.output, s0)
    ensures Forward(fs.files, f0, w', s0, stray) && Kept(fs.files, stray, w.output, s0)
    ensures w' == w.(staged := w'.staged) && (ok <==> w'.staged.Some?) && (ok ==> stray.None?)
    ensures Made(ok, stray.Some?, fs.clock) == StageOneRun(fs.allowed, fs.chunk, old(fs.clock), |w.bytes|)
    ensures Willing(fs.allowed, fs.chunk) ==> ok
  {
    hide Forward, Local, Recorded, SecuredFor, CreateState, Kept, CreateRun;
    ghost var before, start := fs.files, |fs.log|;
    SameLocal(before, fs.log, f0, w, s0);
    var made := fs.Attempt();
    if !made {
      KeptNothing(fs.files, w.output, s0);
      return w, false, None;
    }
    var staged;
    staged, stray := fs.Create(w.output, w.bytes, Stage);
    StageRecorded(fs.log, start, before, fs.files, f0, w, s0, Temp(Stage, w.output, fs.sequence - 1), staged, stray);
    w', ok := w.(staged := staged), staged.Some?;
  }

  lemma {:induction false} KeptNothing(d: Files, name: string, s0: nat)
    ensures Kept(d, None, name, s0)
  {
  }

  /** A transaction under way: nothing is lost, and every write is as far as its record says. */
  ghost predicate Ongoing(d: Files, log: seq<Files>, from: nat, f0: Files, ws: seq<PendingWrite>,
                          requests: seq<Request>, s0: nat, stray: Option<Path>) {
    && from <= |log| && LogSafe(log, from, f0, Names(requests), s0)
    && AllForward(d, f0, ws, s0, stray) && Safe(f0, d, Names(requests), s0)
    && Matches(ws, requests) && DistinctOutputs(ws)
  }

  lemma {:induction false} OngoingStart(d: Files, log: seq<Files>, f0: Files, ws: seq<PendingWrite>,
                                        requests: seq<Request>, s0: nat)
    requires AllForward(d, f0, ws, s0, None) && Safe(f0, d, Names(requests), s0)
    requires Matches(ws, requests) && DistinctOutputs(ws)
    ensures Ongoing(d, log, |log|, f0, ws, requests, s0, None)
  {
    hide LogSafe, AllForward, Safe, DistinctOutputs;
    EmptyLogSafe(log, f0, Names(requests), s0);
  }

  lemma {:induction false} OngoingAt(d: Files, log: seq<Files>, from: nat, f0: Files, ws: seq<PendingWrite>,
                                     requests: seq<Request>, s0: nat, stray: Option<Path>, i: nat)
    requires Ongoing(d, log, from, f0, ws, requests, s0, stray) && i < |ws|
    ensures Forward(d, f0, ws[i], s0, stray) && |ws| == |requests|
    ensures ws[i].output == requests[i].output && ws[i].bytes == requests[i].bytes
  {
    hide LogSafe, AllForward, Safe, DistinctOutputs, Forward;
    ForwardAt(d, f0, ws, i, s0, stray);
  }

  lemma {:induction false} OngoingStep(d: Files, d': Files, log: seq<Files>, log': seq<Files>, from: nat, f0: Files,
                                       ws: seq<PendingWrite>, i: nat, w: PendingWrite, requests: seq<Request>, s0: nat,
                                       stray: Option<Path>)
    requires Ongoing(d, log, from, f0, ws, requests, s0, None) && i < |ws| && log <= log'
    requires w.output == ws[i].output && w.bytes == ws[i].bytes && Recorded(log', |log|, d, f0, w.output, s0)
    requires Local(d, d', w.output, s0) && Forward(d', f0, w, s0, stray) && Kept(d', stray, w.output, s0)
    ensures Ongoing(d', log', from, f0, ws[i := w], requests, s0, stray)
    ensures stray.Some? ==> stray.value.Temp? && stray.value.serial >= s0 && stray.value in d'
  {
    hide LogSafe, AllForward, Safe, DistinctOutputs, Forward, Local, Recorded, SecuredFor;
    LogSafeStep(log, log', from, d, f0, Names(requests), i, s0);
    ForwardSecured(d', f0, w, s0, stray);
    SafeStep(f0, d, d', Names(requests), i, s0);
    AllForwardStep(d, d', f0, ws, i, w, s0, stray);
  }

  lemma {:induction false} OngoingMeans(d: Files, log: seq<Files>, from: nat, f0: Files, ws: seq<PendingWrite>,
                                        requests: seq<Request>, s0: nat, stray: Option<Path>)
    requires Ongoing(d, log, from, f0, ws, requests, s0, stray)
    ensures LogSafe(log, from, f0, Names(requests), s0) && AllForward(d, f0, ws, s0, stray)
    ensures Safe(f0, d, Names(requests), s0) && Matches(ws, requests) && DistinctOutputs(ws)
  {
    hide LogSafe, AllForward, Safe, DistinctOutputs;
  }

  method StageAll(fs: FileSystem, requests: seq<Request>, ws: seq<PendingWrite>, ghost f0: Files, s0: nat)
    returns (ws': seq<PendingWrite>, ok: bool, ghost stray: Option<Path>)
    requires fs.Valid() && s0 <= fs.sequence && Matches(ws, requests) && DistinctOutputs(ws)
    requires AllForward(fs.files, f0, ws, s0, None) && Safe(f0, fs.files, Names(requests), s0)
    requires forall i :: 0 <= i < |ws| ==> ws[i].staged.None? && ws[i].backup.None? && !ws[i].backedUp && !ws[i].installed
    modifies fs
    ensures fs.Valid() && s0 <= fs.sequence && Matches(ws', requests) && DistinctOutputs(ws')
    ensures old(fs.log) <= fs.log && LogSafe(fs.log, |old(fs.log)|, f0, Names(requests), s0)
    ensures AllForward(fs.files, f0, ws', s0, stray) && Safe(f0, fs.files, Names(requests), s0)
    ensures stray.Some? ==> stray.value.Temp? && stray.value.serial >= s0 && stray.value in fs.files
    ensures forall i :: 0 <= i < |ws'| ==> ws'[i].backup.None? && !ws'[i].backedUp && !ws'[i].installed
    ensures ok ==> stray.None? && forall i :: 0 <= i < |ws'| ==> ws'[i].staged.Some?
    ensures Willing(fs.allowed, fs.chunk) ==> ok
    ensures Made(ok, stray.Some?, fs.clock) == StageRun(fs.allowed, fs.chunk, old(fs.clock), requests, 0)
    ensures Shapes(ws') == StageShapes(fs.allowed, fs.chunk, old(fs.clock), requests, 0)
  {
    hide *;
    ws', stray, ok := ws, None, true;
    ghost var log0 := fs.log;
    OngoingStart(fs.files, log0, f0, ws, requests, s0);
    StagedNone(ws);
    MatchesSize(ws, requests);
    var i := 0;
    while i < |ws'| && ok
      invariant i <= |ws'| == |requests| && fs.Valid() && s0 <= fs.sequence && log0 <= fs.log
      invariant Ongoing(fs.files, fs.log, |log0|, f0, ws', requests, s0, stray)
      invariant StagedSoFar(ws', i) && (ok ==> stray.None?)
      invariant stray.Some? ==> stray.value.Temp? && stray.value.serial >= s0 && stray.value in fs.files
      invariant Willing(fs.allowed, fs.chunk) ==> ok
      invariant StageRun(fs.allowed, fs.chunk, old(fs.clock), requests, 0) ==
                if ok then StageRun(fs.allowed, fs.chunk, fs.clock, requests, i)
                else Made(false, stray.Some?, fs.clock)
      invariant ok ==> StageShapes(fs.allowed, fs.chunk, old(fs.clock), requests, 0) ==
                       Repeat(i, STAGED) + StageShapes(fs.allowed, fs.chunk, fs.clock, requests, i)
      invariant !ok ==> StageShapes(fs.allowed, fs.chunk, old(fs.clock), requests, 0) ==
                        Repeat(i, STAGED) + Repeat(|requests| - i, UNTOUCHED)
      decreases |ws'| - i, ok
    {
      ghost var before, log1 := fs.files, fs.log;
      StageStep(fs.allowed, fs.chunk, fs.clock, requests, i);
      StageShapesStep(fs.allowed, fs.chunk, fs.clock, requests, i);
      OngoingAt(before, log1, |log0|, f0, ws', requests, s0, None, i);
      ShapesStaged(ws', i);
      var w;
      w, ok, stray := StageOne(fs, ws'[i], f0, s0);
      OngoingStep(before, fs.files, log1, fs.log, |log0|, f0, ws', i, w, requests, s0, stray);
      StagedNext(ws', i, w);
      ws' := ws'[i := w];
      if ok { i := i + 1; }
    }
    ShapesStaged(ws', i);
    StageEnd(fs.allowed, fs.chunk, fs.clock, requests);
    OngoingMeans(fs.files, fs.log, |log0|, f0, ws', requests, s0, stray);
  }

  lemma {:induction false} MatchesSize(ws: seq<PendingWrite>, requests: seq<Request>)
    requires Matches(ws, requests)
    ensures |ws| == |requests|
    ensures Repeat(0, STAGED) == []
  {
  }

  lemma {:induction false} OriginalExists(d: Files, f0: Files, w: PendingWrite, s0: nat)
    requires Forward(d, f0, w, s0, None) && !w.installed && !w.backedUp
    ensures Named(w.output) in d <==> Named(w.output) in f0
  {
  }

  ghost predicate NotInstalledFrom(ws: seq<PendingWrite>, i: nat) {
    forall j :: i <= j < |ws| ==> ws[j].staged.Some? && ws[j].backup.None? && !ws[j].backedUp && !ws[j].installed
  }

  ghost predicate InstalledTo(ws: seq<PendingWrite>, i: nat) {
    forall j :: 0 <= j < |ws| && j < i ==> ws[j].installed
  }

  lemma {:induction false} InstalledNext(ws: seq<PendingWrite>, i: nat, w: PendingWrite)
    requires i < |ws| && NotInstalledFrom(ws, i) && InstalledTo(ws, i)
    ensures NotInstalledFrom(ws[i := w], i + 1) && (w.installed ==> InstalledTo(ws[i := w], i + 1))
    ensures ws[i].staged.Some? && ws[i].backup.None? && !ws[i].backedUp && !ws[i].installed
  {
  }

  lemma {:induction false} InstalledStart(ws: seq<PendingWrite>)
    requires forall i :: 0 <= i < |ws| ==> ws[i].staged.Some? && ws[i].backup.None? && !ws[i].backedUp && !ws[i].installed
    ensures NotInstalledFrom(ws, 0) && InstalledTo(ws, 0)
  {
  }

  lemma {:induction false} InstalledEnd(ws: seq<PendingWrite>)
    requires InstalledTo(ws, |ws|)
    ensures forall i :: 0 <= i < |ws| ==> ws[i].installed
  {
  }

  method InstallAll(fs: FileSystem, requests: seq<Request>, ws: seq<PendingWrite>, ghost f0: Files, s0: nat)
    returns (ws': seq<PendingWrite>, ok: bool, ghost stray: Option<Path>)
    requires fs.Valid() && s0 <= fs.sequence && Matches(ws, requests) && DistinctOutputs(ws)
    requires AllForward(fs.files, f0, ws, s0, None) && Safe(f0, fs.files, Names(requests), s0)
    requires forall i :: 0 <= i < |ws| ==> ws[i].staged.Some? && ws[i].backup.None? && !ws[i].backedUp && !ws[i].installed
    modifies fs
    ensures fs.Valid() && s0 <= fs.sequence && Matches(ws', requests) && DistinctOutputs(ws')
    ensures old(fs.log) <= fs.log && LogSafe(fs.log, |old(fs.log)|, f0, Names(requests), s0)
    ensures AllForward(fs.files, f0, ws', s0, stray) && Safe(f0, fs.files, Names(requests), s0)
    ensures stray.Some? ==> stray.value.Temp? && stray.value.serial >= s0 && stray.value in fs.files
    ensures ok ==> stray.None? && forall i :: 0 <= i < |ws'| ==> ws'[i].installed
    ensures Made(ok, stray.Some?, fs.clock) == InstallRun(fs.allowed, fs.chunk, old(fs.clock), f0, requests, 0)
    ensures Shapes(ws') == InstallShapes(fs.allowed, fs.chunk, old(fs.clock), f0, requests, 0)
    ensures Willing(fs.allowed, fs.chunk) ==> ok
  {
    hide *;
    ws', stray, ok := ws, None, true;
    ghost var log0 := fs.log;
    ghost var shapes := InstallShapes(fs.allowed, fs.chunk, fs.clock, f0, requests, 0);
    ghost var rest := shapes;
    OngoingStart(fs.files, log0, f0, ws, requests, s0);
    AgreeStart(ws', shapes);
    InstalledStart(ws);
    MatchesSize(ws, requests);
    var i := 0;
    while i < |ws'| && ok
      invariant i <= |ws'| == |requests| && fs.Valid() && s0 <= fs.sequence && log0 <= fs.log
      invariant Ongoing(fs.files, fs.log, |log0|, f0, ws', requests, s0, stray)
      invariant NotInstalledFrom(ws', i) && (ok ==> stray.None? && InstalledTo(ws', i))
      invariant stray.Some? ==> stray.value.Temp? && stray.value.serial >= s0 && stray.value in fs.files
      invariant Willing(fs.allowed, fs.chunk) ==> ok
      invariant Agree(ws', i, rest, shapes)
      invariant rest == if ok then InstallShapes(fs.allowed, fs.chunk, fs.clock, f0, requests, i)
                        else Repeat(|requests| - i, STAGED)
      invariant InstallRun(fs.allowed, fs.chunk, old(fs.clock), f0, requests, 0) ==
                if ok then InstallRun(fs.allowed, fs.chunk, fs.clock, f0, requests, i)
                else Made(false, stray.Some?, fs.clock)
    {
      ghost var before, log1 := fs.files, fs.log;
      OngoingAt(before, log1, |log0|, f0, ws', requests, s0, None, i);
      InstallStep(fs.allowed, fs.chunk, fs.clock, f0, requests, i);
      InstallShapesStep(fs.allowed, fs.chunk, fs.clock, f0, requests, i);
      InstalledNext(ws', i, ws'[i]);
      var w;
      w, ok, stray := InstallOne(fs, ws'[i], f0, s0);
      OngoingStep(before, fs.files, log1, fs.log, |log0|, f0, ws', i, w, requests, s0, stray);
      rest := if ok then InstallShapes(fs.allowed, fs.chunk, fs.clock, f0, requests, i + 1)
              else Repeat(|requests| - i - 1, STAGED);
      AgreeStep(ws', i, w, rest, shapes);
      InstalledNext(ws', i, w);
      ws' := ws'[i := w];
      i := i + 1;
    }
    if ok {
      InstallEnd(fs.allowed, fs.chunk, fs.clock, f0, requests);
      InstalledEnd(ws');
    }
    AgreeEnd(ws', i, rest, shapes);
    OngoingMeans(fs.files, fs.log, |log0|, f0, ws', requests, s0, stray);
  }

  // ---------- Rolling back ----------

  /** Writes from i on are rolled back, those before are not yet. */
  ghost predicate PartlyUndone(d: Files, f0: Files, ws: seq<PendingWrite>, i: nat, s0: nat, stray: Option<Path>,
                               ok: bool) {
    && (forall j :: 0 <= j < i && j < |ws| ==> Forward(d, f0, ws[j], s0, stray))
    && (forall j :: i <= j < |ws| ==> Undone(d, f0, ws[j], s0, stray))
    && (forall j :: i <= j < |ws| && ok ==> Original(d, f0, ws[j].output))
  }

  lemma {:induction false} UndoneFrame(d: Files, d': Files, f0: Files, w: PendingWrite, s0: nat, stray: Option<Path>,
                                       name: string)
    requires Undone(d, f0, w, s0, stray) && Local(d, d', name, s0) && name != w.output
    ensures Undone(d', f0, w, s0, stray)
  {
    hide SecuredFor;
    forall p | Around(p, w.output, s0) ensures SameAt(d, d', p) { assert !Around(p, name, s0); }
    SecuredFrame(d, d', f0, s0, name, w.output);
  }

  lemma {:induction false} OriginalFrame(d: Files, d': Files, f0: Files, other: string, name: string, s0: nat)
    requires Original(d, f0, other) && Local(d, d', name, s0) && name != other
    ensures Original(d', f0, other)
  {
    assert SameAt(d, d', Named(other));
  }

  lemma {:induction false} PartlyUndoneStep(d: Files, d': Files, f0: Files, ws: seq<PendingWrite>, i: nat,
                                            w: PendingWrite, s0: nat,
                         stray: Option<Path>, ok: bool, undone: bool)
    requires i < |ws| && PartlyUndone(d, f0, ws, i + 1, s0, stray, ok) && DistinctOutputs(ws)
    requires w.output == ws[i].output
    requires Local(d, d', w.output, s0) && Undone(d', f0, w, s0, stray) && (undone ==> Original(d', f0, w.output))
    ensures PartlyUndone(d', f0, ws[i := w], i, s0, stray, ok && undone) && DistinctOutputs(ws[i := w])
  {
    hide Forward, Undone, Original, Local;
    var ws' := ws[i := w];
    forall j | 0 <= j < i ensures Forward(d', f0, ws'[j], s0, stray) {
      ForwardFrame(d, d', f0, ws[j], s0, stray, w.output);
    }
    forall j | i <= j < |ws| ensures Undone(d', f0, ws'[j], s0, stray) {
      if j != i { UndoneFrame(d, d', f0, ws[j], s0, stray, w.output); }
    }
    forall j | i <= j < |ws| && ok && undone ensures Original(d', f0, ws'[j].output) {
      if j != i { OriginalFrame(d, d', f0, ws[j].output, w.output, s0); }
    }
  }

  lemma {:induction false} PartlyUndoneAt(d: Files, f0: Files, ws: seq<PendingWrite>, i: nat, s0: nat,
                                          stray: Option<Path>, ok: bool)
    requires i < |ws| && PartlyUndone(d, f0, ws, i + 1, s0, stray, ok)
    ensures Forward(d, f0, ws[i], s0, stray)
  {
    hide Forward, Undone, Original;
  }

  /** Undoes the writes in reverse order, whatever becomes of each. */
  method RollBack(fs: FileSystem, requests: seq<Request>, ws: seq<PendingWrite>, ghost f0: Files, s0: nat,
                  ghost stray: Option<Path>)
    returns (ws': seq<PendingWrite>, ok: bool)
    requires fs.Valid() && Matches(ws, requests) && DistinctOutputs(ws)
    requires AllForward(fs.files, f0, ws, s0, stray) && Safe(f0, fs.files, Names(requests), s0)
    modifies fs
    ensures fs.Valid() && |ws'| == |ws| && forall i :: 0 <= i < |ws| ==> ws'[i].output == ws[i].output
    ensures old(fs.log) <= fs.log && LogSafe(fs.log, |old(fs.log)|, f0, Names(requests), s0)
    ensures PartlyUndone(fs.files, f0, ws', 0, s0, stray, ok) && Safe(f0, fs.files, Names(requests), s0)
    ensures stray.Some? && stray.value.Temp? && stray.value in old(fs.files) ==> stray.value in fs.files
    ensures (forall i :: 0 <= i < |ws| ==> !ws[i].installed && !ws[i].backedUp) ==> ok && ws' == ws
    ensures (ok, fs.clock, Shapes(ws')) == UndoRun(fs.allowed, old(fs.clock), Shapes(ws))
  {
    hide AllForward, PartlyUndone, Safe, LogSafe, Forward, Undone, Local, Recorded, SecuredFor, UndoneSoFar,
      UndoOneRun, ShapeOf;
    UndoneStart(fs.allowed, fs.clock, ws);
    ws', ok := ws, true;
    ghost var log0 := fs.log;
    EmptyLogSafe(log0, f0, Names(requests), s0);
    NothingUndone(fs.files, f0, ws, s0, stray);
    var i := |ws|;
    while i > 0
      invariant 0 <= i <= |ws'| == |ws|
      invariant forall j :: 0 <= j < |ws| ==> ws'[j].output == ws[j].output
      invariant forall j :: 0 <= j < i ==> ws'[j] == ws[j]
      invariant fs.Valid() && DistinctOutputs(ws')
      invariant log0 <= fs.log && LogSafe(fs.log, |log0|, f0, Names(requests), s0)
      invariant PartlyUndone(fs.files, f0, ws', i, s0, stray, ok) && Safe(f0, fs.files, Names(requests), s0)
      invariant stray.Some? && stray.value.Temp? && stray.value in old(fs.files) ==> stray.value in fs.files
      invariant (forall j :: 0 <= j < |ws| ==> !ws[j].installed && !ws[j].backedUp) ==> ok && ws' == ws
      invariant UndoneSoFar(fs.allowed, old(fs.clock), ws, i, ws', ok, fs.clock)
    {
      ghost var clock1 := fs.clock;
      i := i - 1;
      ghost var before, log1 := fs.files, fs.log;
      PartlyUndoneAt(before, f0, ws', i, s0, stray, ok);
      var w, undone := UndoOne(fs, ws'[i], f0, s0, stray);
      LogSafeStep(log1, fs.log, |log0|, before, f0, Names(requests), i, s0);
      UndoneSecured(fs.files, f0, w, s0, stray);
      SafeStep(f0, before, fs.files, Names(requests), i, s0);
      PartlyUndoneStep(before, fs.files, f0, ws', i, w, s0, stray, ok, undone);
      UndoneStep(fs.allowed, old(fs.clock), ws, i, ws', ok, clock1, w);
      ws' := ws'[i := w];
      ok := ok && undone;
    }
    UndoneEnd(fs.allowed, old(fs.clock), ws, ws', ok, fs.clock);
  }

  /** The writes from number i on are undone, and the others are as they were. */
  ghost predicate UndoneSoFar(allowed: nat -> bool, start: nat, ws: seq<PendingWrite>, i: nat, ws': seq<PendingWrite>,
                              ok: bool, clock: nat) {
    && i <= |ws| == |ws'|
    && var (others, end, front) := UndoRun(allowed, clock, Shapes(ws)[..i]);
       UndoRun(allowed, start, Shapes(ws)) == (ok && others, end, front + Shapes(ws')[i..])
  }

  lemma {:induction false} UndoneStart(allowed: nat -> bool, start: nat, ws: seq<PendingWrite>)
    ensures UndoneSoFar(allowed, start, ws, |ws|, ws, true, start)
  {
    hide UndoRun;
    assert Shapes(ws)[..|ws|] == Shapes(ws);
    var (_, _, front) := UndoRun(allowed, start, Shapes(ws));
    assert front + Shapes(ws)[|ws|..] == front;
  }

  lemma {:induction false} UndoneStep(allowed: nat -> bool, start: nat, ws: seq<PendingWrite>, i: nat,
                                      ws': seq<PendingWrite>, ok: bool, clock: nat, w: PendingWrite)
    requires i < |ws| && UndoneSoFar(allowed, start, ws, i + 1, ws', ok, clock)
    requires UndoOneRun(allowed, clock, ShapeOf(ws[i])).2 == ShapeOf(w)
    ensures var (undone, next, _) := UndoOneRun(allowed, clock, ShapeOf(ws[i]));
            UndoneSoFar(allowed, start, ws, i, ws'[i := w], ok && undone, next)
  {
    hide UndoRun, UndoOneRun, ShapeOf;
    var shapes := Shapes(ws);
    UndoStep(allowed, clock, shapes, i);
    var (undone, next, last) := UndoOneRun(allowed, clock, shapes[i]);
    var (others, end, front) := UndoRun(allowed, next, shapes[..i]);
    assert Shapes(ws'[i := w])[i..] == [last] + Shapes(ws')[i + 1..];
    assert (front + [last]) + Shapes(ws')[i + 1..] == front + ([last] + Shapes(ws')[i + 1..]);
  }

  lemma {:induction false} UndoneEnd(allowed: nat -> bool, start: nat, ws: seq<PendingWrite>, ws': seq<PendingWrite>,
                                     ok: bool, clock: nat)
    requires UndoneSoFar(allowed, start, ws, 0, ws', ok, clock)
    ensures (ok, clock, Shapes(ws')) == UndoRun(allowed, start, Shapes(ws))
  {
    assert [] + Shapes(ws')[0..] == Shapes(ws');
  }

  lemma {:induction false} UndoneSecured(d: Files, f0: Files, w: PendingWrite, s0: nat, stray: Option<Path>)
    requires Undone(d, f0, w, s0, stray)
    ensures SecuredFor(d, f0, w.output, s0)
  {
    hide SecuredFor;
  }

  lemma {:induction false} NothingUndone(d: Files, f0: Files, ws: seq<PendingWrite>, s0: nat, stray: Option<Path>)
    requires AllForward(d, f0, ws, s0, stray)
    ensures PartlyUndone(d, f0, ws, |ws|, s0, stray, true)
  {
    hide Forward, Undone, Original;
  }

  // ---------- Cleaning up ----------

  /** What cleaning up never touches: named files, other programs' temporaries and, after a failed rollback, backups. */
  predicate Spared(p: Path, preserve: bool, names: seq<string>, s0: nat) {
    p.Named? || !AroundAny(p, names, s0) || (preserve && p.role == Backup)
  }

  ghost predicate Spares(d: Files, d': Files, preserve: bool, names: seq<string>, s0: nat) {
    d'.Keys <= d.Keys && forall p :: Spared(p, preserve, names, s0) ==> SameAt(d, d', p)
  }

  ghost predicate LogSpares(log: seq<Files>, from: nat, d: Files, preserve: bool, names: seq<string>, s0: nat) {
    forall k :: from <= k < |log| ==> Spares(d, log[k], preserve, names, s0)
  }

  lemma {:induction false} SparesRemoval(d: Files, d': Files, p: Path, preserve: bool, names: seq<string>, s0: nat)
    requires Spares(d, d', preserve, names, s0) && !Spared(p, preserve, names, s0)
    ensures Spares(d, d' - {p}, preserve, names, s0)
  {
  }

  lemma {:induction false} LogSparesSnoc(log: seq<Files>, e: Files, from: nat, d: Files, preserve: bool,
                                         names: seq<string>, s0: nat)
    requires LogSpares(log, from, d, preserve, names, s0) && Spares(d, e, preserve, names, s0)
    ensures LogSpares(log + [e], from, d, preserve, names, s0)
  {
    hide Spares;
  }

  /** No temporary is left beside an output, but for the stray. */
  ghost predicate Cleared(d: Files, name: string, s0: nat, stray: Option<Path>) {
    forall p :: p in d && p.Temp? && Around(p, name, s0) ==> Some(p) == stray
  }

  /** Removes one temporary file. */
  method CleanFile(fs: FileSystem, p: Path, ghost d0: Files, ghost from: nat, ghost preserve: bool,
                   ghost names: seq<string>, ghost s0: nat)
    returns (ok: bool)
    requires fs.Valid() && from <= |fs.log| && !Spared(p, preserve, names, s0)
    requires LogSpares(fs.log, from, d0, preserve, names, s0) && Spares(d0, fs.files, preserve, names, s0)
    modifies fs`clock, fs`files, fs`log
    ensures fs.Valid() && old(fs.log) <= fs.log
    ensures LogSpares(fs.log, from, d0, preserve, names, s0) && Spares(d0, fs.files, preserve, names, s0)
    ensures fs.files == if ok then old(fs.files) - {p} else old(fs.files)
    ensures ok == fs.allowed(old(fs.clock)) && fs.clock == old(fs.clock) + 1
  {
    hide LogSpares, Spares, Spared;
    ghost var log1, before := fs.log, fs.files;
    ok := fs.Remove(p);
    SparesRemoval(d0, before, p, preserve, names, s0);
    LogSparesSnoc(log1, fs.files, from, d0, preserve, names, s0);
  }

  /** Removes the temporaries of one write, and its backup unless backups are preserved. */
  method CleanOne(fs: FileSystem, w: PendingWrite, preserve: bool, ghost d0: Files, ghost from: nat,
                  ghost names: seq<string>,
                  ghost s0: nat, ghost stray: Option<Path>)
    returns (ok: bool)
    requires fs.Valid() && from <= |fs.log| && w.output in names
    requires Temporaries(w, s0, stray) && Accounted(d0, w, s0, stray)
    requires LogSpares(fs.log, from, d0, preserve, names, s0) && Spares(d0, fs.files, preserve, names, s0)
    requires stray.Some? && stray.value in d0 ==> stray.value in fs.files
    modifies fs
    ensures fs.Valid() && old(fs.log) <= fs.log && fs.files.Keys <= old(fs.files).Keys
    ensures LogSpares(fs.log, from, d0, preserve, names, s0) && Spares(d0, fs.files, preserve, names, s0)
    ensures stray.Some? && stray.value in d0 ==> stray.value in fs.files
    ensures ok && !preserve ==> Cleared(fs.files, w.output, s0, stray)
    ensures (w.staged.None? && w.backup.None?) || Willing(fs.allowed, fs.chunk) ==> ok
    ensures (ok, fs.clock) == CleanOneRun(fs.allowed, old(fs.clock), ShapeOf(w), preserve)
  {
    hide LogSpares;
    ok := true;
    if w.staged.Some? {
      ok := CleanFile(fs, w.staged.value, d0, from, preserve, names, s0);
    }
    if !preserve && w.backup.Some? {
      var removed := CleanFile(fs, w.backup.value, d0, from, preserve, names, s0);
      ok := ok && removed;
    }
  }

  ghost predicate AllAccounted(d: Files, ws: seq<PendingWrite>, s0: nat, stray: Option<Path>) {
    forall i :: 0 <= i < |ws| ==> Temporaries(ws[i], s0, stray) && Accounted(d, ws[i], s0, stray)
  }

  ghost predicate AllCleared(d: Files, names: seq<string>, n: nat, s0: nat, stray: Option<Path>) {
    forall i :: 0 <= i < |names| && i < n ==> Cleared(d, names[i], s0, stray)
  }

  lemma {:induction false} AllClearedStep(d: Files, d': Files, names: seq<string>, n: nat, s0: nat, stray: Option<Path>)
    requires AllCleared(d, names, n, s0, stray) && d'.Keys <= d.Keys && n < |names| && Cleared(d', names[n], s0, stray)
    ensures AllCleared(d', names, n + 1, s0, stray)
  {
    forall i | 0 <= i < n + 1 ensures Cleared(d', names[i], s0, stray) {
      if i < n { assert Cleared(d, names[i], s0, stray); }
    }
  }

  method CleanUp(fs: FileSystem, ws: seq<PendingWrite>, preserve: bool, ghost names: seq<string>, ghost s0: nat,
                 ghost stray: Option<Path>)
    returns (ok: bool)
    requires fs.Valid() && AllAccounted(fs.files, ws, s0, stray)
    requires |names| == |ws| && forall i :: 0 <= i < |ws| ==> ws[i].output == names[i]
    modifies fs
    ensures fs.Valid() && old(fs.log) <= fs.log
    ensures LogSpares(fs.log, |old(fs.log)|, old(fs.files), preserve, names, s0)
    ensures Spares(old(fs.files), fs.files, preserve, names, s0)
    ensures stray.Some? && stray.value in old(fs.files) ==> stray.value in fs.files
    ensures ok && !preserve ==> AllCleared(fs.files, names, |names|, s0, stray)
    ensures (forall i :: 0 <= i < |ws| ==> ws[i].staged.None? && ws[i].backup.None?) ==> ok
    ensures Willing(fs.allowed, fs.chunk) ==> ok
    ensures (ok, fs.clock) == CleanRun(fs.allowed, old(fs.clock), Shapes(ws), preserve)
  {
    hide CleanOneRun, ShapeOf;
    hide LogSpares, Spares, AllCleared, Cleared, Accounted, Temporaries, AllAccounted;
    ghost var d0, from := fs.files, |fs.log|;
    NothingCleaned(fs.log, d0, preserve, names, s0, stray);
    ok := true;
    var i := 0;
    while i < |ws|
      invariant i <= |ws| && fs.Valid() && old(fs.log) <= fs.log
      invariant LogSpares(fs.log, from, d0, preserve, names, s0) && Spares(d0, fs.files, preserve, names, s0)
      invariant stray.Some? && stray.value in d0 ==> stray.value in fs.files
      invariant ok && !preserve ==> AllCleared(fs.files, names, i, s0, stray)
      invariant (forall j :: 0 <= j < |ws| ==> ws[j].staged.None? && ws[j].backup.None?) ==> ok
      invariant Willing(fs.allowed, fs.chunk) ==> ok
      invariant (ok, fs.clock) == CleanRun(fs.allowed, old(fs.clock), Shapes(ws)[..i], preserve)
    {
      CleanStep(fs.allowed, old(fs.clock), Shapes(ws), preserve, i);
      ghost var before := fs.files;
      AccountedAt(d0, ws, i, s0, stray);
      var removed := CleanOne(fs, ws[i], preserve, d0, from, names, s0, stray);
      ok := ok && removed;
      if ok && !preserve {
        AllClearedStep(before, fs.files, names, i, s0, stray);
      }
      i := i + 1;
    }
    assert Shapes(ws)[..|ws|] == Shapes(ws);
  }

  lemma {:induction false} AccountedAt(d: Files, ws: seq<PendingWrite>, i: nat, s0: nat, stray: Option<Path>)
    requires AllAccounted(d, ws, s0, stray) && i < |ws|
    ensures Temporaries(ws[i], s0, stray) && Accounted(d, ws[i], s0, stray)
  {
    hide Temporaries, Accounted;
  }

  lemma {:induction false} NothingCleaned(log: seq<Files>, d: Files, preserve: bool, names: seq<string>, s0: nat,
                                          stray: Option<Path>)
    ensures LogSpares(log, |log|, d, preserve, names, s0) && Spares(d, d, preserve, names, s0)
    ensures AllCleared(d, names, 0, s0, stray)
  {
  }

  // ---------- The transaction ----------

  datatype Outcome =
    Rejected | Committed | CommittedWithLeftovers | RolledBack | RolledBackWithLeftovers | RollbackIncomplete

  ghost predicate AllNew(d: Files, requests: seq<Request>) {
    forall i :: 0 <= i < |requests| ==> IsNew(d, requests[i].output, requests[i].bytes)
  }

  ghost predicate AllOriginal(d: Files, f0: Files, names: seq<string>) {
    forall i :: 0 <= i < |names| ==> Original(d, f0, names[i])
  }

  /** Every state: nothing beside the outputs changed, and the original bytes are kept until all
      outputs hold their new ones. */
  ghost predicate Acceptable(f0: Files, d: Files, requests: seq<Request>, s0: nat) {
    Safe(f0, d, Names(requests), s0) || (Elsewhere(f0, d, Names(requests), s0) && AllNew(d, requests))
  }

  /** The initial files with each output's new bytes, and nothing else changed. */
  function Installed(f0: Files, requests: seq<Request>): Files {
    if requests == [] then f0
    else
      var last := requests[|requests| - 1];
      Installed(f0, requests[..|requests| - 1])[Named(last.output) := last.bytes]
  }

  /** No temporary the transaction may pick is there yet. */
  ghost predicate NoneSince(f0: Files, s0: nat) {
    forall p :: p in f0 && p.Temp? ==> p.serial < s0
  }

  lemma {:induction false} InstalledMeans(f0: Files, requests: seq<Request>, p: Path)
    requires Distinct(Names(requests))
    ensures p.Temp? || p.name !in Names(requests) ==> SameAt(f0, Installed(f0, requests), p)
    ensures forall i :: 0 <= i < |requests| && p == Named(requests[i].output) ==>
              IsNew(Installed(f0, requests), requests[i].output, requests[i].bytes)
  {
    if requests != [] {
      var most := requests[..|requests| - 1];
      assert forall i :: 0 <= i < |most| ==> Names(most)[i] == Names(requests)[i];
      if p.Named? && p.name in Names(most) { assert p.name in Names(requests); }
      assert Names(requests)[|requests| - 1] == requests[|requests| - 1].output;
      InstalledMeans(f0, most, p);
      forall i | 0 <= i < |requests| && p == Named(requests[i].output)
        ensures IsNew(Installed(f0, requests), requests[i].output, requests[i].bytes)
      {
        assert Names(requests)[i] == requests[i].output;
        if i < |most| { assert most[i] == requests[i]; }
      }
    }
  }

  lemma {:induction false} SameFiles(a: Files, b: Files)
    requires forall p :: SameAt(a, b, p)
    ensures a == b
  {
    assert a.Keys == b.Keys by {
      forall p ensures p in a.Keys <==> p in b.Keys { assert SameAt(a, b, p); }
    }
    forall p | p in a ensures a[p] == b[p] { assert SameAt(a, b, p); }
  }

  lemma {:induction false} CommittedExactly(f0: Files, d: Files, requests: seq<Request>, s0: nat)
    requires Distinct(Names(requests)) && NoneSince(f0, s0)
    requires Elsewhere(f0, d, Names(requests), s0) && AllNew(d, requests)
    requires AllCleared(d, Names(requests), |requests|, s0, None)
    ensures d == Installed(f0, requests)
  {
    hide Installed;
    var names := Names(requests);
    forall p ensures SameAt(d, Installed(f0, requests), p) {
      InstalledMeans(f0, requests, p);
      if !AroundAny(p, names, s0) {
        assert SameAt(f0, d, p);
      } else if p.Named? {
        var i :| 0 <= i < |names| && names[i] == p.name;
        assert IsNew(d, requests[i].output, requests[i].bytes);
      } else {
        var i :| 0 <= i < |names| && names[i] == p.beside;
        assert Cleared(d, names[i], s0, None);
        assert p !in f0;
      }
    }
    SameFiles(d, Installed(f0, requests));
  }

  /** With every output original and every temporary gone, the stray is all that can differ. */
  lemma {:induction false} RolledBackExactly(f0: Files, d: Files, names: seq<string>, s0: nat, stray: Option<Path>)
    requires NoneSince(f0, s0) && Elsewhere(f0, d, names, s0) && AllOriginal(d, f0, names)
    requires AllCleared(d, names, |names|, s0, stray)
    requires stray.Some? ==> stray.value.Temp? && stray.value.serial >= s0
    ensures d == f0 || (stray.Some? && d - {stray.value} == f0)
  {
    forall p | Some(p) != stray ensures SameAt(f0, d, p) {
      if !AroundAny(p, names, s0) {
      } else if p.Named? {
        var i :| 0 <= i < |names| && names[i] == p.name;
        assert Original(d, f0, names[i]);
      } else {
        var i :| 0 <= i < |names| && names[i] == p.beside;
        assert Cleared(d, names[i], s0, stray);
      }
    }
    if stray.Some? {
      assert stray.value !in f0;
      forall p ensures SameAt(f0, d - {stray.value}, p) {
        if Some(p) != stray { assert SameAt(f0, d, p); }
      }
      SameFiles(f0, d - {stray.value});
    } else {
      SameFiles(f0, d);
    }
  }

  lemma {:induction false} SparesOriginal(f0: Files, d: Files, d': Files, preserve: bool, names: seq<string>, s0: nat)
    requires Elsewhere(f0, d, names, s0) && AllOriginal(d, f0, names) && Spares(d, d', preserve, names, s0)
    ensures Elsewhere(f0, d', names, s0) && AllOriginal(d', f0, names) && Safe(f0, d', names, s0)
  {
    forall p | !AroundAny(p, names, s0) ensures SameAt(f0, d', p) { assert SameAt(f0, d, p) && SameAt(d, d', p); }
    forall i | 0 <= i < |names| ensures Original(d', f0, names[i]) {
      assert Original(d, f0, names[i]) && SameAt(d, d', Named(names[i]));
    }
  }

  lemma {:induction false} SparesSafe(f0: Files, d: Files, d': Files, names: seq<string>, s0: nat)
    requires Safe(f0, d, names, s0) && Spares(d, d', true, names, s0)
    ensures Safe(f0, d', names, s0)
  {
    forall p | !AroundAny(p, names, s0) ensures SameAt(f0, d', p) { assert SameAt(f0, d, p) && SameAt(d, d', p); }
    forall i | 0 <= i < |names| ensures SecuredFor(d', f0, names[i], s0) {
      assert SecuredFor(d, f0, names[i], s0) && SameAt(d, d', Named(names[i]));
      if Named(names[i]) in f0 && !Original(d, f0, names[i]) {
        var n :| n >= s0 && HoldsOriginal(d, f0, names[i], n);
        assert SameAt(d, d', Temp(Backup, names[i], n));
        assert HoldsOriginal(d', f0, names[i], n);
      }
    }
  }

  lemma {:induction false} SparesNew(f0: Files, d: Files, d': Files, requests: seq<Request>, preserve: bool, s0: nat)
    requires Elsewhere(f0, d, Names(requests), s0) && AllNew(d, requests)
    requires Spares(d, d', preserve, Names(requests), s0)
    ensures Elsewhere(f0, d', Names(requests), s0) && AllNew(d', requests)
  {
    var names := Names(requests);
    forall p | !AroundAny(p, names, s0) ensures SameAt(f0, d', p) { assert SameAt(f0, d, p) && SameAt(d, d', p); }
    forall i | 0 <= i < |requests| ensures IsNew(d', requests[i].output, requests[i].bytes) {
      assert IsNew(d, requests[i].output, requests[i].bytes) && SameAt(d, d', Named(requests[i].output));
    }
  }

  ghost predicate LogAcceptable(log: seq<Files>, from: nat, f0: Files, requests: seq<Request>, s0: nat) {
    forall k :: from <= k < |log| ==> Acceptable(f0, log[k], requests, s0)
  }

  /** One stretch of the log after another. */
  lemma {:induction false} LogAcceptableSafe(log: seq<Files>, log': seq<Files>, from: nat, f0: Files,
                                             requests: seq<Request>, s0: nat)
    requires from <= |log| && log <= log'
    requires LogAcceptable(log, from, f0, requests, s0) && LogSafe(log', |log|, f0, Names(requests), s0)
    ensures LogAcceptable(log', from, f0, requests, s0)
  {
    hide Safe, Elsewhere, AllNew;
    forall k | from <= k < |log'| ensures Acceptable(f0, log'[k], requests, s0) {
      if k < |log| { assert log'[k] == log[k]; }
    }
  }

  lemma {:induction false} LogAcceptableOriginal(log: seq<Files>, log': seq<Files>, from: nat, d: Files,
                                                 preserve: bool, f0: Files, requests: seq<Request>, s0: nat)
    requires from <= |log| && log <= log' && LogAcceptable(log, from, f0, requests, s0)
    requires LogSpares(log', |log|, d, preserve, Names(requests), s0)
    requires Elsewhere(f0, d, Names(requests), s0) && AllOriginal(d, f0, Names(requests))
    ensures LogAcceptable(log', from, f0, requests, s0)
  {
    hide Safe, Elsewhere, AllNew, Spares, AllOriginal, Acceptable;
    forall k | |log| <= k < |log'| ensures Safe(f0, log'[k], Names(requests), s0) {
      SparesOriginal(f0, d, log'[k], preserve, Names(requests), s0);
    }
    LogAcceptableSafe(log, log', from, f0, requests, s0);
  }

  lemma {:induction false} LogAcceptablePreserved(log: seq<Files>, log': seq<Files>, from: nat, d: Files, f0: Files,
                                                  requests: seq<Request>, s0: nat)
    requires from <= |log| && log <= log' && LogAcceptable(log, from, f0, requests, s0)
    requires LogSpares(log', |log|, d, true, Names(requests), s0) && Safe(f0, d, Names(requests), s0)
    ensures LogAcceptable(log', from, f0, requests, s0)
  {
    hide Safe, Elsewhere, AllNew, Spares, Acceptable;
    forall k | |log| <= k < |log'| ensures Safe(f0, log'[k], Names(requests), s0) {
      SparesSafe(f0, d, log'[k], Names(requests), s0);
    }
    LogAcceptableSafe(log, log', from, f0, requests, s0);
  }

  lemma {:induction false} LogAcceptableNew(log: seq<Files>, log': seq<Files>, from: nat, d: Files, f0: Files,
                                            requests: seq<Request>, s0: nat)
    requires from <= |log| && log <= log' && LogAcceptable(log, from, f0, requests, s0)
    requires LogSpares(log', |log|, d, false, Names(requests), s0)
    requires Elsewhere(f0, d, Names(requests), s0) && AllNew(d, requests)
    ensures LogAcceptable(log', from, f0, requests, s0)
  {
    hide Safe, Elsewhere, AllNew, Spares;
    forall k | from <= k < |log'| ensures Acceptable(f0, log'[k], requests, s0) {
      if k < |log| { assert log'[k] == log[k]; } else { SparesNew(f0, d, log'[k], requests, false, s0); }
    }
  }

  lemma {:induction false} AllUndone(d: Files, f0: Files, ws: seq<PendingWrite>, names: seq<string>, s0: nat,
                                     stray: Option<Path>, ok: bool)
    requires PartlyUndone(d, f0, ws, 0, s0, stray, ok)
    requires |names| == |ws| && forall i :: 0 <= i < |ws| ==> ws[i].output == names[i]
    ensures AllAccounted(d, ws, s0, stray) && (ok ==> AllOriginal(d, f0, names))
  {
    hide Temporaries, Accounted, Original;
  }

  lemma {:induction false} AllInstalled(d: Files, f0: Files, ws: seq<PendingWrite>, requests: seq<Request>, s0: nat)
    requires AllForward(d, f0, ws, s0, None) && Matches(ws, requests) && forall i :: 0 <= i < |ws| ==> ws[i].installed
    ensures AllAccounted(d, ws, s0, None) && AllNew(d, requests)
  {
    hide Temporaries, Accounted;
    forall i | 0 <= i < |ws| ensures IsNew(d, requests[i].output, requests[i].bytes) {
      assert Forward(d, f0, ws[i], s0, None);
    }
    forall i | 0 <= i < |ws| ensures Temporaries(ws[i], s0, None) && Accounted(d, ws[i], s0, None) {
      assert Forward(d, f0, ws[i], s0, None);
    }
  }

  /** The failure path: roll back in reverse, then clean up, keeping the backups if the rollback failed. */
  method Recover(fs: FileSystem, requests: seq<Request>, ws: seq<PendingWrite>, ghost f0: Files, s0: nat,
                 ghost stray: Option<Path>, ghost from: nat)
    returns (outcome: Outcome)
    requires fs.Valid() && Matches(ws, requests) && DistinctOutputs(ws) && NoneSince(f0, s0)
    requires AllForward(fs.files, f0, ws, s0, stray) && Safe(f0, fs.files, Names(requests), s0)
    requires stray.Some? ==> stray.value.Temp? && stray.value.serial >= s0 && stray.value in fs.files
    requires from <= |fs.log| && LogAcceptable(fs.log, from, f0, requests, s0)
    modifies fs
    ensures fs.Valid() && old(fs.log) <= fs.log && LogAcceptable(fs.log, from, f0, requests, s0)
    ensures outcome in {RolledBack, RolledBackWithLeftovers, RollbackIncomplete}
    ensures Safe(f0, fs.files, Names(requests), s0)
    ensures outcome != RollbackIncomplete ==> AllOriginal(fs.files, f0, Names(requests))
    ensures outcome == RolledBack ==> Back(fs.files, f0, stray) && (fs.files == f0 <==> stray.None?)
    ensures (forall i :: 0 <= i < |ws| ==> !ws[i].installed && !ws[i].backedUp && ws[i].staged.None? && ws[i].backup.None?) ==>
              outcome == RolledBack
    ensures var (undone, next, left) := UndoRun(fs.allowed, old(fs.clock), Shapes(ws));
            var (cleaned, end) := CleanRun(fs.allowed, next, left, !undone);
            fs.clock == end &&
            outcome == if !undone then RollbackIncomplete else if cleaned then RolledBack else RolledBackWithLeftovers
  {
    hide UndoRun, CleanRun, Shapes;
    hide AllForward, PartlyUndone, Safe, LogAcceptable, LogSafe, LogSpares, Spares, Elsewhere, AllOriginal,
      AllAccounted, AllCleared, DistinctOutputs, Forward, NoneSince;
    ghost var log0, names := fs.log, Names(requests);
    var ws', undone := RollBack(fs, requests, ws, f0, s0, stray);
    LogAcceptableSafe(log0, fs.log, from, f0, requests, s0);
    ghost var log1, d1 := fs.log, fs.files;
    AllUndone(d1, f0, ws', names, s0, stray, undone);
    SafeElsewhere(f0, d1, names, s0);
    var cleaned := CleanUp(fs, ws', !undone, names, s0, stray);
    if undone {
      LogAcceptableOriginal(log1, fs.log, from, d1, false, f0, requests, s0);
      SparesOriginal(f0, d1, fs.files, false, names, s0);
      if cleaned {
        RolledBackExactly(f0, fs.files, names, s0, stray);
        NotInitially(f0, s0, stray);
      }
      outcome := if cleaned then RolledBack else RolledBackWithLeftovers;
    } else {
      LogAcceptablePreserved(log1, fs.log, from, d1, f0, requests, s0);
      SparesSafe(f0, d1, fs.files, names, s0);
      outcome := RollbackIncomplete;
    }
  }

  /** The files are the initial ones exactly when there is no stray, which is otherwise all that was added. */
  ghost predicate Back(d: Files, f0: Files, stray: Option<Path>) {
    (d == f0 <==> stray.None?) && (stray.Some? ==> stray.value in d && d - {stray.value} == f0)
  }

  lemma {:induction false} NotInitially(f0: Files, s0: nat, stray: Option<Path>)
    requires NoneSince(f0, s0) && (stray.Some? ==> stray.value.Temp? && stray.value.serial >= s0)
    ensures stray.Some? ==> stray.value !in f0
  {
  }

  lemma {:induction false} SafeElsewhere(f0: Files, d: Files, names: seq<string>, s0: nat)
    requires Safe(f0, d, names, s0)
    ensures Elsewhere(f0, d, names, s0)
  {
  }

  /** Every output can be checked, and no two are the same. */
  predicate Accepted(requests: seq<Request>, allowed: nat -> bool, start: nat) {
    Distinct(Names(requests)) && forall n: nat :: start <= n < start + |requests| ==> allowed(n)
  }

  method CheckOutputs(fs: FileSystem, requests: seq<Request>) returns (ok: bool)
    requires fs.Valid()
    modifies fs`clock
    ensures fs.Valid()
    ensures ok <==> Accepted(requests, fs.allowed, old(fs.clock))
    ensures ok ==> Distinct(Names(requests)) && fs.clock == old(fs.clock) + |requests|
  {
    var outputs: set<string> := {};
    var names := Names(requests);
    var i := 0;
    while i < |requests|
      invariant 0 <= i <= |requests| && fs.clock == old(fs.clock) + i
      invariant forall n: nat :: old(fs.clock) <= n < old(fs.clock) + i ==> fs.allowed(n)
      invariant forall j :: 0 <= j < i ==> names[j] in outputs
      invariant forall n :: n in outputs ==> exists j :: 0 <= j < i && names[j] == n
      invariant forall j, k :: 0 <= j < k < i ==> names[j] != names[k]
    {
      var good := fs.Attempt();
      if !good || names[i] in outputs { return false; }
      outputs := outputs + {names[i]};
      i := i + 1;
    }
    ok := true;
  }

  /** The success path: remove the backups. */
  method Finish(fs: FileSystem, requests: seq<Request>, ws: seq<PendingWrite>, ghost f0: Files, s0: nat,
                ghost from: nat)
    returns (outcome: Outcome)
    requires fs.Valid() && Matches(ws, requests) && NoneSince(f0, s0) && Distinct(Names(requests))
    requires AllForward(fs.files, f0, ws, s0, None) && Safe(f0, fs.files, Names(requests), s0)
    requires forall i :: 0 <= i < |ws| ==> ws[i].installed
    requires from <= |fs.log| && LogAcceptable(fs.log, from, f0, requests, s0)
    modifies fs
    ensures fs.Valid() && old(fs.log) <= fs.log && LogAcceptable(fs.log, from, f0, requests, s0)
    ensures outcome in {Committed, CommittedWithLeftovers}
    ensures Elsewhere(f0, fs.files, Names(requests), s0) && AllNew(fs.files, requests)
    ensures outcome == Committed ==> fs.files == Installed(f0, requests)
    ensures Willing(fs.allowed, fs.chunk) ==> outcome == Committed
    ensures var (cleaned, end) := CleanRun(fs.allowed, old(fs.clock), Shapes(ws), false);
            fs.clock == end && outcome == if cleaned then Committed else CommittedWithLeftovers
  {
    hide CleanRun, Shapes;
    hide AllForward, Safe, LogAcceptable, LogSpares, Spares, Elsewhere, AllAccounted, AllCleared, AllNew, NoneSince,
      Installed;
    ghost var log0, d0, names := fs.log, fs.files, Names(requests);
    AllInstalled(d0, f0, ws, requests, s0);
    SafeElsewhere(f0, d0, names, s0);
    var cleaned := CleanUp(fs, ws, false, names, s0, None);
    LogAcceptableNew(log0, fs.log, from, d0, f0, requests, s0);
    SparesNew(f0, d0, fs.files, requests, false, s0);
    if cleaned { CommittedExactly(f0, fs.files, requests, s0); }
    outcome := if cleaned then Committed else CommittedWithLeftovers;
  }

  /** The transaction. However its operations fail, every state it passes through is acceptable. */
  method WriteFileSet(fs: FileSystem, requests: seq<Request>) returns (outcome: Outcome, ghost stray: Option<Path>)
    requires fs.Valid()
    modifies fs
    ensures fs.Valid() && old(fs.log) <= fs.log
    ensures outcome == Rejected <==> !Accepted(requests, fs.allowed, old(fs.clock))
    ensures outcome == Rejected ==> fs.files == old(fs.files) && fs.log == old(fs.log)
    ensures LogAcceptable(fs.log, |old(fs.log)|, old(fs.files), requests, old(fs.sequence))
    ensures outcome in {Committed, CommittedWithLeftovers} ==>
              Elsewhere(old(fs.files), fs.files, Names(requests), old(fs.sequence)) && AllNew(fs.files, requests)
    ensures outcome == Committed ==> fs.files == Installed(old(fs.files), requests)
    ensures outcome in {RolledBack, RolledBackWithLeftovers, RollbackIncomplete} ==>
              Safe(old(fs.files), fs.files, Names(requests), old(fs.sequence))
    ensures outcome in {RolledBack, RolledBackWithLeftovers} ==> AllOriginal(fs.files, old(fs.files), Names(requests))
    ensures outcome == RolledBack ==> Back(fs.files, old(fs.files), stray)
    ensures stray.Some? <==> Stranded(fs.allowed, fs.chunk, old(fs.clock), old(fs.files), requests)
    ensures outcome == RolledBack ==>
              (fs.files == old(fs.files) <==>
               !Stranded(fs.allowed, fs.chunk, old(fs.clock), old(fs.files), requests))
    ensures outcome in {Committed, CommittedWithLeftovers} <==>
            Installs(fs.allowed, fs.chunk, old(fs.clock), old(fs.files), requests)
    ensures outcome != Rejected ==>
              (outcome, fs.clock) == FinalRun(fs.allowed, fs.chunk, old(fs.clock), old(fs.files), requests)
    ensures outcome != Rejected ==>
              var m := ForwardRun(fs.allowed, fs.chunk, old(fs.clock) + |requests|, old(fs.files), requests);
              && (outcome == RolledBack <==> !m.ok && Smooth(fs.allowed, m.clock, fs.clock))
              && (outcome == Committed <==> m.ok && Smooth(fs.allowed, m.clock, fs.clock))
    ensures Willing(fs.allowed, fs.chunk) && outcome != Rejected ==> outcome == Committed
    ensures outcome != Rejected && |requests| > 0 &&
            !StageOneRun(fs.allowed, fs.chunk, old(fs.clock) + |requests|, |requests[0].bytes|).ok ==>
              outcome == RolledBack
  {
    hide *;
    stray := None;
    var accepted := CheckOutputs(fs, requests);
    var s0 := fs.sequence;
    ghost var f0, log0 := fs.files, fs.log;
    ghost var start := old(fs.clock);
    EmptyLogAcceptable(log0, f0, requests, s0);
    ForwardMeans(fs.allowed, fs.chunk, start, f0, requests);
    if accepted {
      FinalIs(fs.allowed, fs.chunk, start, f0, requests);
      FinalMeans(fs.allowed, fs.chunk, start, f0, requests);
    }
    if !accepted { return Rejected, None; }
    var ws := seq(|requests|, i requires 0 <= i < |requests| =>
      PendingWrite(requests[i].output, requests[i].bytes, None, None, false, false));
    StartForward(fs, ws, requests, s0);
    var ok;
    ws, ok, stray := StageAll(fs, requests, ws, f0, s0);
    if |requests| > 0 && !StageOneRun(fs.allowed, fs.chunk, start + |requests|, |requests[0].bytes|).ok {
      FirstFails(fs.allowed, fs.chunk, start + |requests|, requests, ws);
    }
    LogAcceptableSafe(log0, fs.log, |log0|, f0, requests, s0);
    if ok {
      ghost var log1 := fs.log;
      ws, ok, stray := InstallAll(fs, requests, ws, f0, s0);
      LogAcceptableSafe(log1, fs.log, |log0|, f0, requests, s0);
    }
    if ok {
      outcome := Finish(fs, requests, ws, f0, s0, |log0|);
    } else {
      outcome := Recover(fs, requests, ws, f0, s0, stray, |log0|);
    }
  }

  lemma {:induction false} ForwardMeans(allowed: nat -> bool, chunk: nat -> nat, start: nat, f0: Files,
                                        requests: seq<Request>)
    ensures !Accepted(requests, allowed, start) ==>
              !Stranded(allowed, chunk, start, f0, requests) && !Installs(allowed, chunk, start, f0, requests)
    ensures Accepted(requests, allowed, start) ==>
              var s := StageRun(allowed, chunk, start + |requests|, requests, 0);
              var m := if s.ok then InstallRun(allowed, chunk, s.clock, f0, requests, 0) else s;
              (Stranded(allowed, chunk, start, f0, requests) <==> m.stray) &&
              (Installs(allowed, chunk, start, f0, requests) <==> m.ok)
    ensures |requests| > 0 && !StageOneRun(allowed, chunk, start + |requests|, |requests[0].bytes|).ok ==>
              !StageRun(allowed, chunk, start + |requests|, requests, 0).ok
  {
    hide Accepted, InstallRun, StageOneRun;
  }

  lemma {:induction false} FinalIs(allowed: nat -> bool, chunk: nat -> nat, start: nat, f0: Files,
                                   requests: seq<Request>)
    requires Accepted(requests, allowed, start)
    ensures var staged := StageRun(allowed, chunk, start + |requests|, requests, 0);
            var m := if staged.ok then InstallRun(allowed, chunk, staged.clock, f0, requests, 0) else staged;
            var shapes := if staged.ok then InstallShapes(allowed, chunk, staged.clock, f0, requests, 0)
                          else StageShapes(allowed, chunk, start + |requests|, requests, 0);
            FinalRun(allowed, chunk, start, f0, requests) ==
            if m.ok then
              var (cleaned, end) := CleanRun(allowed, m.clock, shapes, false);
              (if cleaned then Committed else CommittedWithLeftovers, end)
            else
              var (undone, next, left) := UndoRun(allowed, m.clock, shapes);
              var (cleaned, end) := CleanRun(allowed, next, left, !undone);
              (if !undone then RollbackIncomplete else if cleaned then RolledBack else RolledBackWithLeftovers, end)
  {
    hide StageRun, InstallRun, StageShapes, InstallShapes, UndoRun, CleanRun;
  }

  lemma {:induction false} EmptyLogAcceptable(log: seq<Files>, f0: Files, requests: seq<Request>, s0: nat)
    ensures LogAcceptable(log, |log|, f0, requests, s0)
  {
  }

  lemma {:induction false} StartForward(fs: FileSystem, ws: seq<PendingWrite>, requests: seq<Request>, s0: nat)
    requires fs.Valid() && s0 == fs.sequence
    requires |ws| == |requests|
    requires forall i :: 0 <= i < |ws| ==>
               ws[i] == PendingWrite(requests[i].output, requests[i].bytes, None, None, false, false)
    ensures NoneSince(fs.files, s0) && Matches(ws, requests) && (Distinct(Names(requests)) ==> DistinctOutputs(ws))
    ensures AllForward(fs.files, fs.files, ws, s0, None) && Safe(fs.files, fs.files, Names(requests), s0)
  {
    assert forall i :: 0 <= i < |ws| ==> Names(requests)[i] == ws[i].output;
  }

  /** A stray that is a backup: closing the empty file for the backup and removing that file both fail. */
  lemma {:induction false} BackupStranded(allowed: nat -> bool, chunk: nat -> nat, name: string, before: Bytes, b: bv8)
    requires forall n :: allowed(n) <==> n != 7 && n != 8
    requires chunk(3) > 0
    ensures Stranded(allowed, chunk, 0, map[Named(name) := before], [Request(name, [b])])
  {
    var f0, requests := map[Named(name) := before], [Request(name, [b])];
    assert FillRun(allowed, chunk, 4, 0) == (true, 5);
    assert CreateRun(allowed, chunk, 2, 1) == Made(true, false, 5);
    assert StageRun(allowed, chunk, 1, requests, 0) == Made(true, false, 5);
    assert CreateRun(allowed, chunk, 6, 0) == Made(false, true, 9);
    assert InstallRun(allowed, chunk, 5, f0, requests, 0) == Made(false, true, 9);
  }

  /** A rolled-back transaction that leaves a file behind: the first write of a new file and the removal
      of that file both fail, and the transaction never learns of the second failure. */
  method StrayExample() returns (fs: FileSystem, outcome: Outcome)
    ensures outcome == RolledBack && fs.files != map[]
  {
    fs := new FileSystem(map[], 0, n => n < 3, n => 1);
    var requests := [Request("form.xml", [1])];
    ghost var stray;
    outcome, stray := WriteFileSet(fs, requests);
  }
}
