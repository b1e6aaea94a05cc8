/** The file operations of the main process (`file:delete`, `file:trash`,
    `file:move` and `safeRename` in main.js): each handler checks its
    payload, then runs a fixed chain of checks on every path in turn and
    answers with one result per path, in input order.

    The file system is a map from path to node. What the operating system
    answers to `unlink`, `shell.trashItem`, `rename`, `mkdir` and the stream
    copy is not decided by the model: an `Env` value gives, for each call,
    the error it raises, if any. */
module OperationGate {
  import opened Wrappers
  import opened Paths

  type Byte = bv8

  /** What `lstat` finds at a path. */
  datatype Node = File(data: seq<Byte>) | Dir | Link(target: string) | Special

  type Fs = map<string, Node>

  /** A Node.js system error: its `code` (`EXDEV`, `ENOENT`, ...) and `message`. */
  datatype SysError = SysError(code: string, message: string)

  /** The code `rename` raises when source and destination lie on different
      devices. */
  const CrossDevice: string := "EXDEV"

  /** The most symbolic links `stat` follows before it gives up (`ELOOP`). */
  const MaxLinkHops: nat := 40

  /** The error, if any, that each foreign call raises. */
  datatype Env = Env(
    unlink: string -> Option<SysError>,
    trash: string -> Option<SysError>,
    rename: (string, string) -> Option<SysError>,
    mkdir: string -> Option<SysError>,
    copy: (string, string) -> Option<SysError>)

  /** Why one path was refused or failed. */
  datatype Reason = NotAllowed | ForbiddenPath | NotAFile | Io(message: string)

  datatype Outcome = Done(to: Option<string>) | Failed(reason: Reason)

  /** One element of the handler's answer: `{ path, ok, error }` or
      `{ path, ok: true, to }`. */
  datatype OpResult = OpResult(path: string, outcome: Outcome)

  /** What a handler throws before looking at any path. */
  datatype HandlerError = NoPaths | InvalidDestination | DestinationNotFound | DestinationNotDirectory

  /** The per-path operation of a handler. */
  datatype Op = DeleteOp | TrashOp | MoveOp(destination: string, sep: char)

  /** `currentScan && currentScan.allowedPaths.has(p)`; `None` stands for
      no scan having been started. */
  predicate Allowed(session: Option<set<string>>, p: string) {
    session.Some? && p in session.value
  }

  /** `isFile(p)`: `lstat` succeeds and finds a regular file (a symbolic
      link is not followed). */
  predicate IsFile(fs: Fs, p: string) {
    p in fs && fs[p].File?
  }

  /** `fs.stat(p)`: follows symbolic links, at most `hops` of them. */
  function StatNode(fs: Fs, p: string, hops: nat): (r: Option<Node>)
    ensures r.Some? ==> !r.value.Link?
    ensures p in fs && !fs[p].Link? ==> r == Some(fs[p])
    decreases hops
  {
    if p !in fs then None
    else match fs[p]
      case Link(t) => if hops == 0 then None else StatNode(fs, t, hops - 1)
      case n => Some(n)
  }

  /** A successful `rename(src, dest)`: the node moves; renaming a path to
      itself changes nothing. */
  function Moved(fs: Fs, src: string, dest: string): Fs
    requires src in fs
  {
    if src == dest then fs else (fs - {src})[dest := fs[src]]
  }

  /** `mkdir(dir, { recursive: true })` when it succeeds: the directory
      exists afterwards, and an existing one is left alone. */
  function MadeDir(fs: Fs, dir: string): Fs {
    if dir in fs then fs else fs[dir := Dir]
  }

  /** What `safeRename(src, dest)` does: a plain rename; when that fails
      with `EXDEV`, creates the destination's directory, copies the file
      and unlinks the source; any other rename error is raised as is.
      Yields the error raised, if any, and the file system afterwards. */
  function RenameOutcome(fs: Fs, src: string, dest: string, env: Env, sep: char): (Option<SysError>, Fs)
    requires src in fs
  {
    match env.rename(src, dest)
    case None => (None, Moved(fs, src, dest))
    case Some(e) =>
      if e.code != CrossDevice then (Some(e), fs)
      else
        match env.mkdir(Dirname(dest, sep))
        case Some(e1) => (Some(e1), fs)
        case None =>
          var fs1 := MadeDir(fs, Dirname(dest, sep));
          match env.copy(src, dest)
          case Some(e2) => (Some(e2), fs1)
          case None =>
            var fs2 := fs1[dest := fs[src]];
            match env.unlink(src)
            case Some(e3) => (Some(e3), fs2)
            case None => (None, fs2 - {src})
  }

  /** `safeRename(src, dest)`, step by step. */
  method SafeRename(fs: Fs, src: string, dest: string, env: Env, sep: char) returns (err: Option<SysError>, fs': Fs)
    requires src in fs
    ensures (err, fs') == RenameOutcome(fs, src, dest, env, sep)
  {
    err := env.rename(src, dest);
    if err.None? {
      fs' := Moved(fs, src, dest);
      return;
    }
    if err.value.code != CrossDevice {
      fs' := fs;
      return;
    }
    var dir := Dirname(dest, sep);
    err := env.mkdir(dir);
    if err.Some? {
      fs' := fs;
      return;
    }
    fs' := MadeDir(fs, dir);
    err := env.copy(src, dest);
    if err.Some? {
      return;
    }
    fs' := fs'[dest := fs[src]];
    err := env.unlink(src);
    if err.None? {
      fs' := fs' - {src};
    }
  }

  /** A rename that succeeds, directly or through the copy, leaves the
      source's node at the destination and the source gone; apart from the
      destination's directory, no other path changes. */
  lemma RenameMoves(fs: Fs, src: string, dest: string, env: Env, sep: char)
    requires src in fs && src != dest
    requires RenameOutcome(fs, src, dest, env, sep).0.None?
    ensures var fs' := RenameOutcome(fs, src, dest, env, sep).1;
      && dest in fs' && fs'[dest] == fs[src] && src !in fs'
      && forall q :: q != src && q != dest && q != Dirname(dest, sep) ==>
           (q in fs' <==> q in fs) && (q in fs ==> fs'[q] == fs[q])
  {
  }

  /** A rename error other than `EXDEV` changes nothing. */
  lemma RenameFailsCleanly(fs: Fs, src: string, dest: string, env: Env, sep: char)
    requires src in fs
    requires env.rename(src, dest).Some? && env.rename(src, dest).value.code != CrossDevice
    ensures RenameOutcome(fs, src, dest, env, sep) == (env.rename(src, dest), fs)
  {
  }

  /** When the copy succeeds but unlinking the source fails, the error is
      raised while both the source and its copy remain. */
  lemma CopyKeptOnUnlinkFailure(fs: Fs, src: string, dest: string, env: Env, sep: char)
    requires src in fs && src != dest
    requires env.rename(src, dest).Some? && env.rename(src, dest).value.code == CrossDevice
    requires env.mkdir(Dirname(dest, sep)).None? && env.copy(src, dest).None? && env.unlink(src).Some?
    ensures var (err, fs') := RenameOutcome(fs, src, dest, env, sep);
      err == env.unlink(src) && src in fs' && fs'[src] == fs[src] && dest in fs' && fs'[dest] == fs[src]
  {
  }

  /** The chain of checks and the operation for one path: not allowed,
      then (for delete only) a root path, then not a regular file; only
      then the foreign call. Yields the path's result and the file system
      afterwards. */
  function GateOne(op: Op, session: Option<set<string>>, fs: Fs, env: Env, p: string): (OpResult, Fs) {
    if !Allowed(session, p) then (OpResult(p, Failed(NotAllowed)), fs)
    else if op.DeleteOp? && IsRootPath(p) then (OpResult(p, Failed(ForbiddenPath)), fs)
    else if !IsFile(fs, p) then (OpResult(p, Failed(NotAFile)), fs)
    else
      match op
      case DeleteOp =>
        (match env.unlink(p)
         case Some(e) => (OpResult(p, Failed(Io(e.message))), fs)
         case None => (OpResult(p, Done(None)), fs - {p}))
      case TrashOp =>
        (match env.trash(p)
         case Some(e) => (OpResult(p, Failed(Io(e.message))), fs)
         case None => (OpResult(p, Done(None)), fs - {p}))
      case MoveOp(d, sep) =>
        var dest := Join(d, Basename(p, sep), sep);
        var (err, fs1) := RenameOutcome(fs, p, dest, env, sep);
        match err
        case Some(e) => (OpResult(p, Failed(Io(e.message))), fs1)
        case None => (OpResult(p, Done(Some(dest))), fs1)
  }

  /** The `for (const p of paths)` loop of a handler: the results in input
      order and the file system after the last path. */
  function GateAll(op: Op, session: Option<set<string>>, fs: Fs, env: Env, paths: seq<string>): (seq<OpResult>, Fs)
    decreases |paths|
  {
    if paths == [] then ([], fs)
    else
      var (r, fs1) := GateOne(op, session, fs, env, paths[0]);
      var (rs, fs2) := GateAll(op, session, fs1, env, paths[1..]);
      ([r] + rs, fs2)
  }

  /** The body of the loop for one path: the checks in order, each ending
      the path's turn with its refusal, then the operation itself. */
  method GateStep(op: Op, session: Option<set<string>>, fs: Fs, env: Env, p: string)
    returns (r: OpResult, fs': Fs)
    ensures (r, fs') == GateOne(op, session, fs, env, p)
  {
    fs' := fs;
    if !Allowed(session, p) {
      return OpResult(p, Failed(NotAllowed)), fs';
    }
    if op.DeleteOp? && IsRootPath(p) {
      return OpResult(p, Failed(ForbiddenPath)), fs';
    }
    if !IsFile(fs, p) {
      return OpResult(p, Failed(NotAFile)), fs';
    }
    match op
    case DeleteOp =>
      var e := env.unlink(p);
      if e.Some? {
        r := OpResult(p, Failed(Io(e.value.message)));
      } else {
        r, fs' := OpResult(p, Done(None)), fs - {p};
      }
    case TrashOp =>
      var e := env.trash(p);
      if e.Some? {
        r := OpResult(p, Failed(Io(e.value.message)));
      } else {
        r, fs' := OpResult(p, Done(None)), fs - {p};
      }
    case MoveOp(d, sep) =>
      var dest := Join(d, Basename(p, sep), sep);
      var e;
      e, fs' := SafeRename(fs, p, dest, env, sep);
      if e.Some? {
        r := OpResult(p, Failed(Io(e.value.message)));
      } else {
        r := OpResult(p, Done(Some(dest)));
      }
  }

  /** The loop of a handler, one path at a time. */
  method RunGate(op: Op, session: Option<set<string>>, fs: Fs, env: Env, paths: seq<string>)
    returns (res: seq<OpResult>, fs': Fs)
    ensures (res, fs') == GateAll(op, session, fs, env, paths)
  {
    res, fs' := [], fs;
    var i := 0;
    assert paths[i..] == paths;
    while i < |paths|
      invariant 0 <= i <= |paths|
      invariant GateAll(op, session, fs, env, paths).0 == res + GateAll(op, session, fs', env, paths[i..]).0
      invariant GateAll(op, session, fs, env, paths).1 == GateAll(op, session, fs', env, paths[i..]).1
    {
      ghost var before := fs';
      var r;
      r, fs' := GateStep(op, session, fs', env, paths[i]);
      GateAllStep(op, session, fs, env, paths, i, res, before, r, fs');
      res := res + [r];
      i := i + 1;
    }
    assert paths[i..] == [];
    assert res + [] == res;
  }

  /** The loop invariant of `RunGate` survives one more path. */
  lemma GateAllStep(op: Op, session: Option<set<string>>, fs0: Fs, env: Env, paths: seq<string>, i: nat,
                    res: seq<OpResult>, fs: Fs, r: OpResult, fs1: Fs)
    requires i < |paths|
    requires GateAll(op, session, fs0, env, paths).0 == res + GateAll(op, session, fs, env, paths[i..]).0
    requires GateAll(op, session, fs0, env, paths).1 == GateAll(op, session, fs, env, paths[i..]).1
    requires (r, fs1) == GateOne(op, session, fs, env, paths[i])
    ensures GateAll(op, session, fs0, env, paths).0 == (res + [r]) + GateAll(op, session, fs1, env, paths[i + 1..]).0
    ensures GateAll(op, session, fs0, env, paths).1 == GateAll(op, session, fs1, env, paths[i + 1..]).1
  {
    assert paths[i..][1..] == paths[i + 1..];
    var g := GateAll(op, session, fs1, env, paths[i + 1..]);
    assert GateAll(op, session, fs, env, paths[i..]) == ([r] + g.0, g.1);
    assert res + ([r] + g.0) == (res + [r]) + g.0;
  }

  /** The payload check shared by the handlers: `paths` must be a
      non-empty array (`None` stands for anything that is not an array). */
  predicate HasPaths(paths: Option<seq<string>>) {
    paths.Some? && paths.value != []
  }

  /** `file:delete` */
  method Delete(paths: Option<seq<string>>, session: Option<set<string>>, fs: Fs, env: Env)
    returns (r: Result<seq<OpResult>, HandlerError>, fs': Fs)
    ensures !HasPaths(paths) ==> r == Failure(NoPaths) && fs' == fs
    ensures HasPaths(paths) ==> r.Success? && (r.value, fs') == GateAll(DeleteOp, session, fs, env, paths.value)
  {
    if !HasPaths(paths) {
      return Failure(NoPaths), fs;
    }
    var res;
    res, fs' := RunGate(DeleteOp, session, fs, env, paths.value);
    r := Success(res);
  }

  /** `file:trash` */
  method Trash(paths: Option<seq<string>>, session: Option<set<string>>, fs: Fs, env: Env)
    returns (r: Result<seq<OpResult>, HandlerError>, fs': Fs)
    ensures !HasPaths(paths) ==> r == Failure(NoPaths) && fs' == fs
    ensures HasPaths(paths) ==> r.Success? && (r.value, fs') == GateAll(TrashOp, session, fs, env, paths.value)
  {
    if !HasPaths(paths) {
      return Failure(NoPaths), fs;
    }
    var res;
    res, fs' := RunGate(TrashOp, session, fs, env, paths.value);
    r := Success(res);
  }

  /** The destination checks of `file:move`, made before any path: it must
      be a non-empty string (`None`: not a string) that `stat` finds to be
      a directory. */
  function CheckDestination(fs: Fs, destination: Option<string>): (r: Result<string, HandlerError>)
    ensures r.Success? ==> destination == Some(r.value) && r.value != []
    ensures r.Success? <==>
      destination.Some? && destination.value != [] && StatNode(fs, destination.value, MaxLinkHops) == Some(Dir)
    ensures (destination.None? || destination.value == []) <==> r == Failure(InvalidDestination)
    ensures r == Failure(DestinationNotFound) <==>
      destination.Some? && destination.value != [] && StatNode(fs, destination.value, MaxLinkHops).None?
  {
    if destination.None? || destination.value == [] then Failure(InvalidDestination)
    else
      match StatNode(fs, destination.value, MaxLinkHops)
      case None => Failure(DestinationNotFound)
      case Some(n) => if n.Dir? then Success(destination.value) else Failure(DestinationNotDirectory)
  }

  /** `file:move` */
  method Move(paths: Option<seq<string>>, destination: Option<string>, session: Option<set<string>>,
              fs: Fs, env: Env, sep: char)
    returns (r: Result<seq<OpResult>, HandlerError>, fs': Fs)
    ensures !HasPaths(paths) ==> r == Failure(NoPaths) && fs' == fs
    ensures HasPaths(paths) && CheckDestination(fs, destination).Failure? ==>
      r == Failure(CheckDestination(fs, destination).error) && fs' == fs
    ensures HasPaths(paths) && CheckDestination(fs, destination).Success? ==>
      r.Success? && (r.value, fs') == GateAll(MoveOp(destination.value, sep), session, fs, env, paths.value)
  {
    if !HasPaths(paths) {
      return Failure(NoPaths), fs;
    }
    var d := CheckDestination(fs, destination);
    if d.Failure? {
      return Failure(d.error), fs;
    }
    var res;
    res, fs' := RunGate(MoveOp(d.value, sep), session, fs, env, paths.value);
    r := Success(res);
  }

  /** One result per path, in input order. */
  lemma {:induction false} GateAllShape(op: Op, session: Option<set<string>>, fs: Fs, env: Env, paths: seq<string>)
    ensures var res := GateAll(op, session, fs, env, paths).0;
      |res| == |paths| && forall i :: 0 <= i < |paths| ==> res[i].path == paths[i]
    decreases |paths|
  {
    if paths != [] {
      var fs1 := GateOne(op, session, fs, env, paths[0]).1;
      GateAllShape(op, session, fs1, env, paths[1..]);
    }
  }

  /** The checks come in a fixed order, whatever the file system: a path
      that is not allowed is refused as such; for delete, an allowed root
      path is forbidden; only delete refuses root paths; a path succeeds
      only if it is allowed (and, for delete, not a root), and a move sends
      it to the destination under its own base name. */
  lemma {:induction false} GateAllChecks(op: Op, session: Option<set<string>>, fs: Fs, env: Env,
                                         paths: seq<string>, i: nat)
    requires i < |paths|
    decreases i
    ensures var res := GateAll(op, session, fs, env, paths).0;
      && |res| == |paths|
      && (!Allowed(session, paths[i]) ==> res[i].outcome == Failed(NotAllowed))
      && (Allowed(session, paths[i]) && op.DeleteOp? && IsRootPath(paths[i]) ==>
            res[i].outcome == Failed(ForbiddenPath))
      && (res[i].outcome == Failed(ForbiddenPath) ==> op.DeleteOp?)
      && (res[i].outcome.Done? ==> Allowed(session, paths[i]) && !(op.DeleteOp? && IsRootPath(paths[i])))
      && (op.MoveOp? && res[i].outcome.Done? ==>
            res[i].outcome.to == Some(Join(op.destination, Basename(paths[i], op.sep), op.sep)))
  {
    GateAllShape(op, session, fs, env, paths);
    var fs1 := GateOne(op, session, fs, env, paths[0]).1;
    GateAllShape(op, session, fs1, env, paths[1..]);
    if i > 0 {
      GateAllChecks(op, session, fs1, env, paths[1..], i - 1);
    }
  }

  /** The paths that were reported done. */
  function Succeeded(res: seq<OpResult>): set<string> {
    set r | r in res && r.outcome.Done? :: r.path
  }

  /** Delete and trash remove exactly the paths they report done, each of
      which was a regular file; nothing else in the file system changes. */
  lemma {:induction false} RemovesExactlySucceeded(op: Op, session: Option<set<string>>, fs: Fs, env: Env,
                                                   paths: seq<string>)
    requires !op.MoveOp?
    ensures var (res, fs') := GateAll(op, session, fs, env, paths);
      && fs' == fs - Succeeded(res)
      && forall p :: p in Succeeded(res) ==> IsFile(fs, p)
    decreases |paths|
  {
    if paths != [] {
      var (r, fs1) := GateOne(op, session, fs, env, paths[0]);
      var (rs, fs2) := GateAll(op, session, fs1, env, paths[1..]);
      RemovesExactlySucceeded(op, session, fs1, env, paths[1..]);
      assert Succeeded([r] + rs) == (if r.outcome.Done? then {r.path} else {}) + Succeeded(rs);
      if r.outcome.Done? {
        assert fs1 == fs - {paths[0]};
        assert fs2 == fs - ({paths[0]} + Succeeded(rs));
      } else {
        assert fs1 == fs;
      }
    }
  }

  /** The allow-list is not touched by a delete: deleting the same allowed
      file twice in one request reports the second attempt as not a file,
      not as not allowed. */
  lemma DeleteTwice(session: Option<set<string>>, fs: Fs, env: Env, p: string)
    requires Allowed(session, p) && !IsRootPath(p) && IsFile(fs, p) && env.unlink(p).None?
    ensures GateAll(DeleteOp, session, fs, env, [p, p]).0
         == [OpResult(p, Done(None)), OpResult(p, Failed(NotAFile))]
  {
    var fs1 := fs - {p};
    assert GateOne(DeleteOp, session, fs, env, p) == (OpResult(p, Done(None)), fs1);
    assert GateOne(DeleteOp, session, fs1, env, p) == (OpResult(p, Failed(NotAFile)), fs1);
    assert [p, p][1..] == [p];
    assert [p][1..] == [];
    assert GateAll(DeleteOp, session, fs1, env, [p]).0 == [OpResult(p, Failed(NotAFile))];
  }
}
