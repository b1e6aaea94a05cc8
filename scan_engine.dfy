/** The scan engine of the main process (`startScan` in main.js): a FIFO
    queue of directories drained by at most eight `processDir` tasks, the
    file counters, the allow-list of matched paths and the throttled match
    buffer, driven one step at a time.

    Node runs the tasks on one thread and they interleave only where they
    wait: on `opendir`, on the next directory entry and on `stat`. The class
    below keeps each running task as the point where it waits (a `Task`
    value), and every method is one of the steps the event loop can take. */
module ScanEngine {
  import opened Wrappers
  import opened Strings
  import opened Paths

  /** `MAX`: the most directories read at the same time. */
  const MaxTasks: nat := 8

  /** The threshold used when the caller gives none: 1 GiB. */
  const DefaultThreshold: int := 1024 * 1024 * 1024

  /** The shortest gap between two unforced match batches, in milliseconds. */
  const FlushInterval: int := 100

  /** `bytesThreshold(v)`: the caller's value when it is a number above zero
      (`None` stands for anything that is not a number), 1 GiB otherwise. */
  function BytesThreshold(v: Option<int>): (r: int)
    ensures r > 0
    ensures v.Some? && v.value > 0 ==> r == v.value
    ensures v.None? || v.value <= 0 ==> r == DefaultThreshold
  {
    match v
    case Some(x) => if x > 0 then x else DefaultThreshold
    case None => DefaultThreshold
  }

  /** Why `scan:start` refuses to start. */
  datatype StartError = InvalidRootDir | DirectoryNotFound | NotADirectory

  /** The checks of `scan:start` before it calls `startScan`: a missing or
      empty root, then a root `stat` cannot read (`isDirectory` is `None`),
      then a root that is not a directory, each refuses the start. */
  function CheckRoot(rootDir: Option<string>, isDirectory: Option<bool>): (r: Result<string, StartError>)
    ensures r.Success? <==> rootDir.Some? && rootDir.value != [] && isDirectory == Some(true)
    ensures r.Success? ==> r.value == rootDir.value
    ensures (rootDir.None? || rootDir.value == []) <==> r == Failure(InvalidRootDir)
    ensures rootDir.Some? && rootDir.value != [] ==> (r == Failure(DirectoryNotFound) <==> isDirectory.None?)
    ensures r == Failure(NotADirectory) <==> rootDir.Some? && rootDir.value != [] && isDirectory == Some(false)
  {
    if rootDir.None? || rootDir.value == [] then Failure(InvalidRootDir)
    else if isDirectory.None? then Failure(DirectoryNotFound)
    else if !isDirectory.value then Failure(NotADirectory)
    else Success(rootDir.value)
  }

  const MacRoots: seq<string> := ["/System", "/Library", "/Applications"]
  const WinRoots: seq<string> := ["C:\\Windows", "C:\\Program Files", "C:\\Program Files (x86)"]

  /** The path starts with one of the platform's system directories. */
  predicate UnderSystemRoot(p: string, platform: Platform) {
    || (platform == Darwin && exists r :: r in MacRoots && StartsWith(p, r))
    || (platform == Win32 && exists r :: r in WinRoots && StartsWith(p, r))
  }

  /** `shouldIgnoreDir(p)`: a directory is skipped when one of its path
      segments is `node_modules` or `.git`, or when it lies under a system
      directory of the platform. */
  function ShouldIgnoreDir(p: string, platform: Platform): bool {
    var names := set s | s in Split(p, Sep(platform)) && s != [];
    if "node_modules" in names || ".git" in names then true
    else UnderSystemRoot(p, platform)
  }

  /** A directory is ignored exactly when `node_modules` or `.git` is one
      of its whole path segments, or it lies under a system directory. */
  lemma ShouldIgnoreDirIff(p: string, platform: Platform)
    ensures ShouldIgnoreDir(p, platform) <==> (|| IsField(p, Sep(platform), "node_modules")
                                              || IsField(p, Sep(platform), ".git")
                                              || UnderSystemRoot(p, platform))
  {
    SplitFields(p, Sep(platform), "node_modules");
    SplitFields(p, Sep(platform), ".git");
  }

  /** The `percent` of a progress event, kept exact: processed files over
      all files seen so far, 0 before any file. */
  function Percent(processed: nat, pending: nat): (r: real)
    ensures 0.0 <= r <= 1.0
    ensures processed + pending == 0 ==> r == 0.0
    ensures processed + pending > 0 ==> r * (processed + pending) as real == processed as real
    ensures pending == 0 && processed > 0 ==> r == 1.0
  {
    var total := processed + pending;
    if total == 0 then 0.0 else processed as real / total as real
  }

  /** What `stat` reports of a file. */
  datatype Stat = Stat(size: int, mtimeMs: int)

  datatype EntryKind = SymbolicLink | Directory | RegularFile | OtherKind

  /** One entry of a directory listing, with the answer `stat` gives for it
      (`None`: the file vanished or could not be read). */
  datatype Entry = Entry(name: string, kind: EntryKind, stat: Option<Stat>)

  /** What the consumer learns of one matching file. */
  datatype MatchRecord = MatchRecord(name: string, size: int, path: string, mtimeMs: int)

  /** The messages sent to the window. */
  datatype Event =
    | MatchBatch(batch: seq<MatchRecord>)
    | Progress(processed: nat, pending: nat)
    | Done(processed: nat, matches: nat, cancelled: bool)

  /** A running `processDir` call, at the point where it waits. */
  datatype Task =
    | Opening(dir: string)                                // on `opendir`
    | Iterating(dir: string, rest: seq<Entry>)            // on the next entry
    | Statting(dir: string, entry: Entry, rest: seq<Entry>) // on `stat` of `entry`

  /** The entries a task has not finished yet. */
  function Remaining(t: Task): seq<Entry> {
    match t
    case Opening(_) => []
    case Iterating(_, rest) => rest
    case Statting(_, e, rest) => [e] + rest
  }

  /** All match records the event log has handed over, in order. */
  function Batches(events: seq<Event>): seq<MatchRecord> {
    if events == [] then []
    else (if events[0].MatchBatch? then events[0].batch else []) + Batches(events[1..])
  }

  /** The event log holds no `done` message. */
  predicate NoDone(events: seq<Event>) {
    events == [] || (!events[0].Done? && NoDone(events[1..]))
  }

  /** How many tasks wait on `stat`. */
  function StattingCount(tasks: seq<Task>): nat {
    if tasks == [] then 0
    else (if tasks[0].Statting? then 1 else 0) + StattingCount(tasks[1..])
  }

  /** Fresh tasks for directories taken from the queue. */
  function Openings(dirs: seq<string>): (r: seq<Task>)
    ensures |r| == |dirs|
  {
    if dirs == [] then [] else [Opening(dirs[0])] + Openings(dirs[1..])
  }

  lemma {:induction false} OpeningsAppend(dirs: seq<string>, d: string)
    ensures Openings(dirs + [d]) == Openings(dirs) + [Opening(d)]
  {
    if dirs != [] {
      assert (dirs + [d])[1..] == dirs[1..] + [d];
      OpeningsAppend(dirs[1..], d);
    } else {
      assert [d][1..] == [];
    }
  }

  lemma {:induction false} OpeningsConcat(a: seq<string>, b: seq<string>)
    ensures Openings(a + b) == Openings(a) + Openings(b)
  {
    if a == [] {
      assert a + b == b;
    } else {
      assert (a + b)[1..] == a[1..] + b;
      OpeningsConcat(a[1..], b);
    }
  }

  /** A task updated twice, with directories started in between. */
  lemma TasksStep(t0: seq<Task>, k: nat, x: Task, y: Task, a: seq<string>, b: seq<string>)
    requires k < |t0|
    ensures (t0[k := x] + Openings(a))[k := y] + Openings(b) == t0[k := y] + Openings(a + b)
  {
    OpeningsConcat(a, b);
    assert (t0[k := x] + Openings(a))[k := y] == t0[k := y] + Openings(a);
  }

  /** A task updated, directories started, then the task removed. */
  lemma TasksRemoveStep(t0: seq<Task>, k: nat, x: Task, a: seq<string>, b: seq<string>)
    requires k < |t0|
    ensures RemoveAt(t0[k := x] + Openings(a), k) + Openings(b) == RemoveAt(t0, k) + Openings(a + b)
  {
    OpeningsConcat(a, b);
    assert RemoveAt(t0[k := x] + Openings(a), k) == RemoveAt(t0, k) + Openings(a);
  }

  /** Two rounds of appending to and taking from the queue. */
  lemma QueueStep<T>(q0: seq<T>, s1: seq<T>, s2: seq<T>, a: seq<T>, q: seq<T>, b: seq<T>, q2: seq<T>)
    requires q0 + s1 == a + q && q + s2 == b + q2
    ensures q0 + (s1 + s2) == (a + b) + q2
  {
    calc {
      q0 + (s1 + s2);
      (q0 + s1) + s2;
      (a + q) + s2;
      a + (q + s2);
      a + (b + q2);
    }
  }

  function RemoveAt<T>(s: seq<T>, k: nat): seq<T>
    requires k < |s|
  {
    s[..k] + s[k + 1..]
  }

  /** The paths of the records. */
  function PathsOf(log: seq<MatchRecord>): set<string> {
    if log == [] then {} else {log[0].path} + PathsOf(log[1..])
  }

  /** Every record is at or above the threshold. */
  predicate AllAtLeast(log: seq<MatchRecord>, threshold: int) {
    log == [] || (log[0].size >= threshold && AllAtLeast(log[1..], threshold))
  }

  lemma {:induction false} LogAppend(log: seq<MatchRecord>, r: MatchRecord, threshold: int)
    ensures PathsOf(log + [r]) == PathsOf(log) + {r.path}
    ensures AllAtLeast(log + [r], threshold) <==> AllAtLeast(log, threshold) && r.size >= threshold
  {
    if log != [] {
      assert (log + [r])[1..] == log[1..] + [r];
      LogAppend(log[1..], r, threshold);
    } else {
      assert [r][1..] == [];
    }
  }

  /** The record of a file entry of `dir` whose `stat` succeeded. */
  function RecordOf(dir: string, e: Entry, sep: char): MatchRecord
    requires e.stat.Some?
  {
    MatchRecord(e.name, e.stat.value.size, Join(dir, e.name, sep), e.stat.value.mtimeMs)
  }

  /** The record a `stat` of entry `e` of `dir` yields: one when the
      `stat` succeeded with a size at or above the threshold, none otherwise. */
  function StatMatch(dir: string, e: Entry, threshold: int, sep: char): seq<MatchRecord> {
    if e.stat.Some? && e.stat.value.size >= threshold then [RecordOf(dir, e, sep)] else []
  }

  /** The record an entry of `dir` contributes: only regular files are
      `stat`ed. */
  function MatchOf(dir: string, e: Entry, threshold: int, sep: char): seq<MatchRecord> {
    if e.kind == RegularFile then StatMatch(dir, e, threshold, sep) else []
  }

  /** The records the entries of one directory contribute, in listing order. */
  function MatchesIn(dir: string, entries: seq<Entry>, threshold: int, sep: char): seq<MatchRecord> {
    if entries == [] then []
    else MatchOf(dir, entries[0], threshold, sep) + MatchesIn(dir, entries[1..], threshold, sep)
  }

  /** The number of regular files among the entries. */
  function FileCount(entries: seq<Entry>): nat {
    if entries == [] then 0 else FileOf(entries[0]) + FileCount(entries[1..])
  }

  /** The directory an entry of `dir` adds to the queue: itself, joined to
      `dir`, when it is a directory that is not ignored. */
  function SubdirOf(dir: string, e: Entry, platform: Platform): seq<string> {
    var full := Join(dir, e.name, Sep(platform));
    if e.kind == Directory && !ShouldIgnoreDir(full, platform) then [full] else []
  }

  /** The subdirectories the entries of `dir` add to the queue, in listing order. */
  function SubdirsIn(dir: string, entries: seq<Entry>, platform: Platform): seq<string> {
    if entries == [] then []
    else SubdirOf(dir, entries[0], platform) + SubdirsIn(dir, entries[1..], platform)
  }

  /** 1 for a regular file, 0 for any other entry. */
  function FileOf(e: Entry): nat {
    if e.kind == RegularFile then 1 else 0
  }

  /** What a directory's entries contribute grows entry by entry. */
  lemma {:induction false} MatchesInAppend(dir: string, s: seq<Entry>, e: Entry, threshold: int, sep: char)
    ensures MatchesIn(dir, s + [e], threshold, sep) == MatchesIn(dir, s, threshold, sep) + MatchOf(dir, e, threshold, sep)
  {
    if s == [] {
      assert [e][1..] == [];
    } else {
      assert (s + [e])[1..] == s[1..] + [e];
      MatchesInAppend(dir, s[1..], e, threshold, sep);
    }
  }

  lemma {:induction false} FileCountAppend(s: seq<Entry>, e: Entry)
    ensures FileCount(s + [e]) == FileCount(s) + FileOf(e)
  {
    if s == [] {
      assert [e][1..] == [];
    } else {
      assert (s + [e])[1..] == s[1..] + [e];
      FileCountAppend(s[1..], e);
    }
  }

  lemma {:induction false} SubdirsInAppend(dir: string, s: seq<Entry>, e: Entry, platform: Platform)
    ensures SubdirsIn(dir, s + [e], platform) == SubdirsIn(dir, s, platform) + SubdirOf(dir, e, platform)
  {
    if s == [] {
      assert [e][1..] == [];
    } else {
      assert (s + [e])[1..] == s[1..] + [e];
      SubdirsInAppend(dir, s[1..], e, platform);
    }
  }

  /** What the first `i + 1` entries contribute, from the first `i`. */
  lemma ListingStep(dir: string, all: seq<Entry>, i: nat, threshold: int, platform: Platform)
    requires i < |all|
    ensures MatchesIn(dir, all[..i + 1], threshold, Sep(platform))
         == MatchesIn(dir, all[..i], threshold, Sep(platform)) + MatchOf(dir, all[i], threshold, Sep(platform))
    ensures FileCount(all[..i + 1]) == FileCount(all[..i]) + FileOf(all[i])
    ensures SubdirsIn(dir, all[..i + 1], platform) == SubdirsIn(dir, all[..i], platform) + SubdirOf(dir, all[i], platform)
  {
    assert all[..i + 1] == all[..i] + [all[i]];
    MatchesInAppend(dir, all[..i], all[i], threshold, Sep(platform));
    FileCountAppend(all[..i], all[i]);
    SubdirsInAppend(dir, all[..i], all[i], platform);
  }

  /** A log that grew twice. */
  lemma LogStep<T>(l0: seq<T>, a: seq<T>, log: seq<T>, b: seq<T>, l1: seq<T>)
    requires log == l0 + a && l1 == log + b
    ensures l1 == l0 + (a + b)
  {
  }

  lemma {:induction false} StattingCountAppend(a: seq<Task>, b: seq<Task>)
    ensures StattingCount(a + b) == StattingCount(a) + StattingCount(b)
  {
    if a == [] {
      assert a + b == b;
    } else {
      assert (a + b)[1..] == a[1..] + b;
      StattingCountAppend(a[1..], b);
    }
  }

  lemma {:induction false} StattingCountOpenings(dirs: seq<string>)
    ensures StattingCount(Openings(dirs)) == 0
  {
    if dirs != [] {
      StattingCountOpenings(dirs[1..]);
    }
  }

  lemma {:induction false} StattingCountUpdate(s: seq<Task>, k: nat, t: Task)
    requires k < |s|
    ensures StattingCount(s[k := t]) + (if s[k].Statting? then 1 else 0)
         == StattingCount(s) + (if t.Statting? then 1 else 0)
  {
    if k == 0 {
      assert s[k := t][1..] == s[1..];
    } else {
      assert s[k := t][1..] == s[1..][k - 1 := t];
      StattingCountUpdate(s[1..], k - 1, t);
    }
  }

  lemma {:induction false} StattingCountRemove(s: seq<Task>, k: nat)
    requires k < |s|
    ensures StattingCount(RemoveAt(s, k)) + (if s[k].Statting? then 1 else 0) == StattingCount(s)
  {
    if k == 0 {
      assert RemoveAt(s, k) == s[1..];
    } else {
      var r := RemoveAt(s, k);
      assert r[0] == s[0] && r[1..] == RemoveAt(s[1..], k - 1);
      StattingCountRemove(s[1..], k - 1);
    }
  }

  /** The scan has ended: nothing runs or waits, nothing is buffered, and
      `done` is the last message, carrying the final counters. */
  predicate Ended(tasks: seq<Task>, queue: seq<string>, sessionRunning: bool, buffer: seq<MatchRecord>,
                 events: seq<Event>, processed: nat, matches: nat, cancelled: bool)
  {
    && tasks == [] && queue == [] && !sessionRunning && buffer == []
    && events != [] && events[|events| - 1] == Done(processed, matches, cancelled)
  }

  /** `running` counts the tasks, at most eight, and the pending files are
      the tasks waiting on `stat`. */
  predicate TasksOk(running: nat, tasks: seq<Task>, pending: nat) {
    running == |tasks| <= MaxTasks && pending == StattingCount(tasks)
  }

  /** Every match is above the threshold, counted, and allowed; nothing
      else is allowed. */
  predicate LogOk(matches: nat, log: seq<MatchRecord>, processed: nat, allowed: set<string>, threshold: int) {
    && matches == |log| <= processed
    && allowed == PathsOf(log)
    && AllAtLeast(log, threshold)
  }

  /** Every match has been sent or waits in the buffer, in discovery order. */
  predicate SentOk(events: seq<Event>, buffer: seq<MatchRecord>, log: seq<MatchRecord>) {
    Batches(events) + buffer == log
  }

  /** The event log after a forced flush of `buffer` followed by `done`. */
  function Closed(events: seq<Event>, buffer: seq<MatchRecord>, done: Event): seq<Event> {
    events + (if buffer == [] then [] else [MatchBatch(buffer)]) + [done]
  }

  /** Closing hands over the whole buffer, and `done` comes last. */
  lemma ClosedLog(events: seq<Event>, buffer: seq<MatchRecord>, log: seq<MatchRecord>, done: Event)
    requires NoDone(events) && SentOk(events, buffer, log) && done.Done?
    ensures var c := Closed(events, buffer, done);
      && SentOk(c, [], log) && c[|c| - 1] == done && NoDone(c[..|c| - 1])
  {
    var c := Closed(events, buffer, done);
    var mid := events + (if buffer == [] then [] else [MatchBatch(buffer)]);
    assert c[..|c| - 1] == mid;
    if buffer != [] {
      BatchesAppend(events, MatchBatch(buffer));
    } else {
      assert mid == events;
    }
    BatchesAppend(mid, done);
    assert Batches(c) + [] == Batches(c);
  }

  lemma {:induction false} BatchesAppend(events: seq<Event>, e: Event)
    ensures Batches(events + [e]) == Batches(events) + (if e.MatchBatch? then e.batch else [])
    ensures NoDone(events + [e]) <==> NoDone(events) && !e.Done?
  {
    if events != [] {
      assert (events + [e])[1..] == events[1..] + [e];
      BatchesAppend(events[1..], e);
    } else {
      assert [e][1..] == [];
    }
  }

  /** The messages the `stat` of entry `e` sends, given the buffer and the
      time of the last batch before it: nothing unless `e` is a regular file
      `stat` can read; then the buffer with the new record when it matches
      and 100 ms have passed, and a progress message in every case. */
  function StatEvents(dir: string, e: Entry, buffer: seq<MatchRecord>, lastEmit: int, now: int,
                      threshold: int, sep: char, processed: nat, pending: nat): seq<Event>
  {
    if e.kind == RegularFile && e.stat.Some? then
      (if e.stat.value.size >= threshold && now - lastEmit >= FlushInterval
       then [MatchBatch(buffer + [RecordOf(dir, e, sep)])] else [])
      + [Progress(processed, pending)]
    else []
  }

  /** The number of progress messages among the events. */
  function ProgressCount(events: seq<Event>): nat {
    if events == [] then 0 else (if events[0].Progress? then 1 else 0) + ProgressCount(events[1..])
  }

  /** The number of regular files among the entries that `stat` can read. */
  function StatCount(entries: seq<Entry>): nat {
    if entries == [] then 0
    else (if entries[0].kind == RegularFile && entries[0].stat.Some? then 1 else 0) + StatCount(entries[1..])
  }

  lemma {:induction false} ProgressCountConcat(a: seq<Event>, b: seq<Event>)
    ensures ProgressCount(a + b) == ProgressCount(a) + ProgressCount(b)
  {
    if a == [] {
      assert a + b == b;
    } else {
      assert (a + b)[1..] == a[1..] + b;
      ProgressCountConcat(a[1..], b);
    }
  }

  lemma {:induction false} StatCountAppend(s: seq<Entry>, e: Entry)
    ensures StatCount(s + [e]) == StatCount(s) + StatCount([e])
  {
    if s == [] {
      assert s + [e] == [e];
    } else {
      assert (s + [e])[1..] == s[1..] + [e];
      StatCountAppend(s[1..], e);
    }
  }

  /** Each entry sends one progress message when `stat` reads it, and none
      otherwise; the log only grows. */
  lemma ProgressStep(e0: seq<Event>, events: seq<Event>, all: seq<Entry>, i: nat, extra: seq<Event>,
                     dir: string, buffer: seq<MatchRecord>, lastEmit: int, now: int,
                     threshold: int, sep: char, processed: nat, pending: nat)
    requires i < |all| && e0 <= events
    requires ProgressCount(events) == ProgressCount(e0) + StatCount(all[..i])
    requires extra == StatEvents(dir, all[i], buffer, lastEmit, now, threshold, sep, processed, pending)
    ensures e0 <= events + extra
    ensures ProgressCount(events + extra) == ProgressCount(e0) + StatCount(all[..i + 1])
  {
    assert all[..i + 1] == all[..i] + [all[i]];
    StatCountAppend(all[..i], all[i]);
    assert [all[i]][1..] == [];
    ProgressCountConcat(events, extra);
    var batch := if all[i].stat.Some? && all[i].stat.value.size >= threshold && now - lastEmit >= FlushInterval
                 then [MatchBatch(buffer + [RecordOf(dir, all[i], sep)])] else [];
    if all[i].kind == RegularFile && all[i].stat.Some? {
      ProgressCountConcat(batch, [Progress(processed, pending)]);
    }
  }

  /** Closing only appends to the log, and adds no progress message. */
  lemma ClosedProgress(events: seq<Event>, buffer: seq<MatchRecord>, done: Event)
    requires done.Done?
    ensures events <= Closed(events, buffer, done)
    ensures ProgressCount(Closed(events, buffer, done)) == ProgressCount(events)
  {
    var tail := (if buffer == [] then [] else [MatchBatch(buffer)]) + [done];
    assert Closed(events, buffer, done) == events + tail;
    ProgressCountConcat(events, tail);
    if buffer != [] {
      ProgressCountConcat([MatchBatch(buffer)], [done]);
    }
  }

  lemma {:induction false} PathsOfConcat(a: seq<MatchRecord>, b: seq<MatchRecord>)
    ensures PathsOf(a + b) == PathsOf(a) + PathsOf(b)
  {
    if a == [] {
      assert a + b == b;
    } else {
      assert (a + b)[1..] == a[1..] + b;
      PathsOfConcat(a[1..], b);
    }
  }

  /** The state of one scan session: the variables of `startScan`'s closure
      and the `currentScan` record it shares with the flag handlers. */
  class ScanSession {
    /** `scanId` */
    const id: string
    const threshold: int
    const platform: Platform

    /** `currentScan.running`: the session has been neither stopped nor finished. */
    var sessionRunning: bool
    /** `currentScan.paused` */
    var paused: bool
    /** `currentScan.allowedPaths`: the paths later operations may touch. */
    var allowedPaths: set<string>

    /** `dirQueue` */
    var queue: seq<string>
    /** `running`: the number of `processDir` calls in flight. */
    var running: nat
    /** The `processDir` calls in flight, each at the point where it waits. */
    var tasks: seq<Task>
    var pendingFiles: nat
    var processedFiles: nat
    var matches: nat
    var cancelled: bool
    var matchBuffer: seq<MatchRecord>
    var lastEmit: int
    /** Everything sent to the window, in order. */
    var events: seq<Event>

    /** Every record that ever matched, in discovery order. */
    ghost var matchedLog: seq<MatchRecord>

    /** The scan has sent `done`. */
    ghost predicate Finished()
      reads this
    {
      Ended(tasks, queue, sessionRunning, matchBuffer, events, processedFiles, matches, cancelled)
    }

    ghost predicate Valid()
      reads this
    {
      && threshold > 0
      && TasksOk(running, tasks, pendingFiles)
      && LogOk(matches, matchedLog, processedFiles, allowedPaths, threshold)
      && SentOk(events, matchBuffer, matchedLog)
      && (cancelled ==> !sessionRunning)
      && (NoDone(events) || (Finished() && NoDone(events[..|events| - 1])))
    }

    /** No further task can be started right now. */
    ghost predicate Settled()
      reads this`running, this`queue, this`sessionRunning, this`paused
    {
      !(running < MaxTasks && queue != [] && sessionRunning && !paused)
    }

    /** `emitBuffer(force)`: sends the whole buffer as one batch when it is
        not empty and either `force` is set or 100 ms have passed since the
        last batch; otherwise leaves buffer and clock alone. */
    method EmitBuffer(force: bool, now: int)
      requires NoDone(events) && SentOk(events, matchBuffer, matchedLog)
      modifies this`events, this`matchBuffer, this`lastEmit
      ensures NoDone(events) && SentOk(events, matchBuffer, matchedLog)
      ensures old(matchBuffer) != [] && (force || now - old(lastEmit) >= FlushInterval) ==>
        events == old(events) + [MatchBatch(old(matchBuffer))] && matchBuffer == [] && lastEmit == now
      ensures old(matchBuffer) == [] || !(force || now - old(lastEmit) >= FlushInterval) ==>
        events == old(events) && matchBuffer == old(matchBuffer) && lastEmit == old(lastEmit)
    {
      if matchBuffer == [] {
        return;
      }
      if force || now - lastEmit >= FlushInterval {
        BatchesAppend(events, MatchBatch(matchBuffer));
        events := events + [MatchBatch(matchBuffer)];
        matchBuffer := [];
        lastEmit := now;
      }
    }

    /** The loop of `pump()`: takes directories off the front of the queue
        and starts a task for each while fewer than eight run and the
        session is neither stopped nor paused. */
    method StartQueued() returns (ghost taken: seq<string>)
      requires Valid() && NoDone(events)
      modifies this`queue, this`tasks, this`running
      ensures Valid() && Settled()
      ensures old(queue) == taken + queue
      ensures tasks == old(tasks) + Openings(taken)
      ensures taken != [] ==> sessionRunning && !paused
    {
      var q, t, r := queue, tasks, running;
      taken := [];
      while r < MaxTasks && q != [] && sessionRunning && !paused
        invariant queue == taken + q
        invariant r == running + |taken| <= MaxTasks
        invariant t == tasks + Openings(taken)
        invariant taken != [] ==> sessionRunning && !paused
        invariant unchanged(this)
        decreases |q|
      {
        OpeningsAppend(taken, q[0]);
        assert taken + q == (taken + [q[0]]) + q[1..];
        taken, q, t, r := taken + [q[0]], q[1..], t + [Opening(q[0])], r + 1;
      }
      StattingCountOpenings(taken);
      StattingCountAppend(tasks, Openings(taken));
      queue, tasks, running := q, t, r;
    }

    /** The end of `pump()` once nothing runs and nothing is queued: the
        session stops, the buffer is flushed and `done` is sent. */
    method Close(now: int)
      requires Valid() && NoDone(events) && running == 0 && queue == []
      modifies this`sessionRunning, this`events, this`matchBuffer, this`lastEmit
      ensures Valid() && Finished()
      ensures events == Closed(old(events), old(matchBuffer), Done(processedFiles, matches, cancelled))
    {
      sessionRunning := false;
      ClosedLog(events, matchBuffer, matchedLog, Done(processedFiles, matches, cancelled));
      events := Closed(events, matchBuffer, Done(processedFiles, matches, cancelled));
      if matchBuffer != [] {
        lastEmit := now;
      }
      matchBuffer := [];
    }

    /** `pump()`: starts queued directories, oldest first (`taken`),
        while fewer than eight run and the session is neither stopped nor
        paused; then, when nothing runs and nothing is queued, ends the
        session with `done`. */
    method Pump(now: int) returns (ghost taken: seq<string>)
      requires Valid() && NoDone(events)
      modifies this
      ensures Valid() && Settled()
      ensures old(queue) == taken + queue
      ensures tasks == old(tasks) + Openings(taken)
      ensures taken != [] ==> old(sessionRunning) && !old(paused)
      ensures paused == old(paused) && cancelled == old(cancelled)
      ensures processedFiles == old(processedFiles) && pendingFiles == old(pendingFiles)
      ensures matchedLog == old(matchedLog) && allowedPaths == old(allowedPaths)
      ensures old(running) == 0 && old(queue) == [] ==>
        Finished() && events == Closed(old(events), old(matchBuffer), Done(processedFiles, matches, cancelled))
      ensures !(old(running) == 0 && old(queue) == []) ==>
        && sessionRunning == old(sessionRunning)
        && events == old(events) && matchBuffer == old(matchBuffer) && lastEmit == old(lastEmit)
    {
      taken := StartQueued();
      if running == 0 && queue == [] {
        Close(now);
      }
    }

    /** `enqueue(dirPath)`: appends to the queue, then pumps. */
    method Enqueue(dir: string, now: int) returns (ghost taken: seq<string>)
      requires Valid() && NoDone(events) && running > 0
      modifies this
      ensures Valid() && Settled()
      ensures old(queue) + [dir] == taken + queue
      ensures tasks == old(tasks) + Openings(taken)
      ensures taken != [] ==> old(sessionRunning) && !old(paused)
      ensures sessionRunning == old(sessionRunning) && paused == old(paused) && cancelled == old(cancelled)
      ensures processedFiles == old(processedFiles) && pendingFiles == old(pendingFiles)
      ensures matchedLog == old(matchedLog) && allowedPaths == old(allowedPaths)
      ensures events == old(events) && matchBuffer == old(matchBuffer) && lastEmit == old(lastEmit)
    {
      queue := queue + [dir];
      taken := Pump(now);
    }

    /** `startScan(rootDir, threshold)`: a fresh session whose queue holds
        the root, which is started at once; the root is never checked
        against the ignore rules. */
    constructor (rootDir: string, threshold: int, platform: Platform, id: string)
      requires threshold > 0
      ensures Valid() && Settled()
      ensures this.threshold == threshold && this.platform == platform && this.id == id
      ensures sessionRunning && !paused && !cancelled
      ensures queue == [] && tasks == [Opening(rootDir)] && running == 1
      ensures allowedPaths == {} && processedFiles == 0 && pendingFiles == 0 && matches == 0
      ensures matchBuffer == [] && events == [] && lastEmit == 0
    {
      this.id := id;
      this.threshold := threshold;
      this.platform := platform;
      sessionRunning, paused, allowedPaths := true, false, {};
      queue, running, tasks := [], 1, [Opening(rootDir)];
      pendingFiles, processedFiles, matches, cancelled := 0, 0, 0, false;
      matchBuffer, lastEmit, events := [], 0, [];
      matchedLog := [];
    }

    /** The `finally` of `processDir`: the task leaves, `running` drops, and
        the queue is pumped. */
    method FinishTask(k: nat, now: int) returns (ghost taken: seq<string>)
      requires Valid() && k < |tasks| && !tasks[k].Statting?
      modifies this
      ensures Valid() && Settled()
      ensures old(queue) == taken + queue
      ensures tasks == RemoveAt(old(tasks), k) + Openings(taken)
      ensures taken != [] ==> old(sessionRunning) && !old(paused)
      ensures paused == old(paused) && cancelled == old(cancelled)
      ensures processedFiles == old(processedFiles) && pendingFiles == old(pendingFiles)
      ensures matchedLog == old(matchedLog) && allowedPaths == old(allowedPaths)
      ensures old(running) == 1 && old(queue) == [] ==> Finished()
      ensures !(old(running) == 1 && old(queue) == []) ==>
        && sessionRunning == old(sessionRunning)
        && events == old(events) && matchBuffer == old(matchBuffer) && lastEmit == old(lastEmit)
      ensures old(events) <= events && ProgressCount(events) == ProgressCount(old(events))
    {
      StattingCountRemove(tasks, k);
      tasks := RemoveAt(tasks, k);
      running := running - 1;
      ghost var ev, buf := events, matchBuffer;
      taken := Pump(now);
      ClosedProgress(ev, buf, Done(processedFiles, matches, cancelled));
    }

    /** `opendir` answers: a directory that cannot be opened ends the task
        at once; otherwise the task goes on to its entries. */
    method OpenDir(k: nat, tree: map<string, seq<Entry>>, now: int) returns (finished: bool, ghost taken: seq<string>)
      requires Valid() && k < |tasks| && tasks[k].Opening?
      modifies this
      ensures Valid()
      ensures finished <==> old(tasks[k].dir) !in tree
      ensures !finished ==> tasks == old(tasks)[k := Iterating(old(tasks[k].dir), tree[old(tasks[k].dir)])]
      ensures !finished ==> taken == []
      ensures finished ==> tasks == RemoveAt(old(tasks), k) + Openings(taken)
      ensures old(queue) == taken + queue
      ensures taken != [] ==> old(sessionRunning) && !old(paused)
      ensures paused == old(paused) && cancelled == old(cancelled)
      ensures processedFiles == old(processedFiles) && pendingFiles == old(pendingFiles)
      ensures matchedLog == old(matchedLog) && allowedPaths == old(allowedPaths)
      ensures finished && old(running) == 1 && old(queue) == [] ==> Finished()
      ensures !(finished && old(running) == 1 && old(queue) == []) ==>
        && sessionRunning == old(sessionRunning)
        && events == old(events) && matchBuffer == old(matchBuffer) && lastEmit == old(lastEmit)
    {
      var dir := tasks[k].dir;
      if dir !in tree {
        taken := FinishTask(k, now);
        return true, taken;
      }
      StattingCountUpdate(tasks, k, Iterating(dir, tree[dir]));
      tasks := tasks[k := Iterating(dir, tree[dir])];
      return false, [];
    }

    /** The body of one turn of the `for await` loop of `processDir` for
        the next entry of task `k`, up to the `stat` of a file: symbolic
        links and other entries are skipped, a subdirectory not ignored is
        enqueued (which may start it at once), and a regular file counts as
        pending while its `stat` is awaited. */
    method Visit(k: nat, now: int) returns (ghost taken: seq<string>)
      requires Valid() && k < |tasks| && tasks[k].Iterating? && tasks[k].rest != []
      requires sessionRunning && !paused
      modifies this
      ensures Valid()
      ensures
        var t := old(tasks[k]);
        var e := t.rest[0];
        var subdirs := SubdirOf(t.dir, e, platform);
        && tasks == old(tasks)[k := if e.kind == RegularFile then Statting(t.dir, e, t.rest[1..])
                                    else Iterating(t.dir, t.rest[1..])]
                    + Openings(taken)
        && pendingFiles == old(pendingFiles) + (if e.kind == RegularFile then 1 else 0)
        && old(queue) + subdirs == taken + queue
      ensures sessionRunning && paused == old(paused) && cancelled == old(cancelled)
      ensures processedFiles == old(processedFiles)
      ensures matchedLog == old(matchedLog) && allowedPaths == old(allowedPaths)
      ensures events == old(events) && matchBuffer == old(matchBuffer) && lastEmit == old(lastEmit)
    {
      var t := tasks[k];
      var e := t.rest[0];
      var full := Join(t.dir, e.name, Sep(platform));
      taken := [];
      if e.kind == RegularFile {
        StattingCountUpdate(tasks, k, Statting(t.dir, e, t.rest[1..]));
        pendingFiles := pendingFiles + 1;
        tasks := tasks[k := Statting(t.dir, e, t.rest[1..])];
      } else {
        StattingCountUpdate(tasks, k, Iterating(t.dir, t.rest[1..]));
        tasks := tasks[k := Iterating(t.dir, t.rest[1..])];
        if e.kind == Directory && !ShouldIgnoreDir(full, platform) {
          taken := Enqueue(full, now);
        }
      }
      assert tasks == tasks + Openings([]);
    }

    /** One turn of the `for await` loop of `processDir`. The loop ends, and
        the task with it, when the entries run out, when the session has
        been stopped (then `cancelled` is set) or when it is paused (the
        entries not yet read are dropped); otherwise the entry is visited. */
    method ProcessEntry(k: nat, now: int) returns (finished: bool, ghost taken: seq<string>)
      requires Valid() && k < |tasks| && tasks[k].Iterating?
      modifies this
      ensures Valid()
      ensures taken != [] ==> old(sessionRunning) && !old(paused)
      ensures paused == old(paused) && processedFiles == old(processedFiles)
      ensures matchedLog == old(matchedLog) && allowedPaths == old(allowedPaths)
      ensures finished <==> old(tasks[k].rest) == [] || !old(sessionRunning) || old(paused)
      ensures cancelled <==> old(cancelled) || (old(tasks[k].rest) != [] && !old(sessionRunning))
      ensures finished ==>
        && tasks == RemoveAt(old(tasks), k) + Openings(taken)
        && old(queue) == taken + queue
        && pendingFiles == old(pendingFiles)
      ensures finished && old(running) == 1 && old(queue) == [] ==> Finished()
      ensures finished && !(old(running) == 1 && old(queue) == []) ==>
        && sessionRunning == old(sessionRunning)
        && events == old(events) && matchBuffer == old(matchBuffer) && lastEmit == old(lastEmit)
      ensures old(events) <= events && ProgressCount(events) == ProgressCount(old(events))
      ensures !finished ==>
        var t := old(tasks[k]);
        var e := t.rest[0];
        var subdirs := SubdirOf(t.dir, e, platform);
        && sessionRunning && events == old(events) && matchBuffer == old(matchBuffer) && lastEmit == old(lastEmit)
        && tasks == old(tasks)[k := if e.kind == RegularFile then Statting(t.dir, e, t.rest[1..])
                                    else Iterating(t.dir, t.rest[1..])]
                    + Openings(taken)
        && pendingFiles == old(pendingFiles) + (if e.kind == RegularFile then 1 else 0)
        && old(queue) + subdirs == taken + queue
    {
      var t := tasks[k];
      if t.rest == [] || !sessionRunning || paused {
        if t.rest != [] && !sessionRunning {
          cancelled := true;
        }
        taken := FinishTask(k, now);
        return true, taken;
      }
      taken := Visit(k, now);
      return false, taken;
    }

    /** A file at or above the threshold: its path joins the allow-list,
        `matches` grows and its record joins the buffer, which is then sent
        if 100 ms have passed since the last batch. */
    method RecordMatch(rec: MatchRecord, now: int)
      requires NoDone(events) && SentOk(events, matchBuffer, matchedLog)
      requires LogOk(matches, matchedLog, processedFiles, allowedPaths, threshold) && rec.size >= threshold
      modifies this`allowedPaths, this`matches, this`matchBuffer, this`matchedLog, this`events, this`lastEmit
      ensures NoDone(events) && SentOk(events, matchBuffer, matchedLog)
      ensures LogOk(matches, matchedLog, processedFiles + 1, allowedPaths, threshold)
      ensures matchedLog == old(matchedLog) + [rec] && allowedPaths == old(allowedPaths) + {rec.path}
      ensures now - old(lastEmit) >= FlushInterval ==>
        events == old(events) + [MatchBatch(old(matchBuffer) + [rec])] && matchBuffer == [] && lastEmit == now
      ensures now - old(lastEmit) < FlushInterval ==>
        events == old(events) && matchBuffer == old(matchBuffer) + [rec] && lastEmit == old(lastEmit)
    {
      LogAppend(matchedLog, rec, threshold);
      allowedPaths := allowedPaths + {rec.path};
      matches := matches + 1;
      matchBuffer := matchBuffer + [rec];
      matchedLog := matchedLog + [rec];
      EmitBuffer(false, now);
    }

    /** The file task `k` waited on is processed: the counters move and the
        task goes back to reading entries. */
    method CountProcessed(k: nat)
      requires TasksOk(running, tasks, pendingFiles) && k < |tasks| && tasks[k].Statting?
      modifies this`processedFiles, this`pendingFiles, this`tasks
      ensures TasksOk(running, tasks, pendingFiles)
      ensures tasks == old(tasks)[k := Iterating(old(tasks[k]).dir, old(tasks[k]).rest)]
      ensures processedFiles == old(processedFiles) + 1 && pendingFiles == old(pendingFiles) - 1
    {
      var t := tasks[k];
      StattingCountUpdate(tasks, k, Iterating(t.dir, t.rest));
      processedFiles := processedFiles + 1;
      pendingFiles := pendingFiles - 1;
      tasks := tasks[k := Iterating(t.dir, t.rest)];
    }

    /** The file task `k` waited on is processed: the counters move, the
        task goes back to reading entries, and `scan:progress` reports the
        new counters. */
    method ReportProcessed(k: nat)
      requires TasksOk(running, tasks, pendingFiles) && k < |tasks| && tasks[k].Statting?
      requires NoDone(events) && SentOk(events, matchBuffer, matchedLog)
      modifies this`processedFiles, this`pendingFiles, this`tasks, this`events
      ensures TasksOk(running, tasks, pendingFiles)
      ensures NoDone(events) && SentOk(events, matchBuffer, matchedLog)
      ensures tasks == old(tasks)[k := Iterating(old(tasks[k]).dir, old(tasks[k]).rest)]
      ensures processedFiles == old(processedFiles) + 1 && pendingFiles == old(pendingFiles) - 1
      ensures events == old(events) + [Progress(processedFiles, pendingFiles)]
    {
      CountProcessed(k);
      BatchesAppend(events, Progress(processedFiles, pendingFiles));
      events := events + [Progress(processedFiles, pendingFiles)];
    }

    /** `stat` fails for the file task `k` waits on: the file counts as
        processed without a match, and nothing is sent. */
    method StatFailed(k: nat)
      requires Valid() && k < |tasks| && tasks[k].Statting? && tasks[k].entry.stat.None?
      modifies this`processedFiles, this`pendingFiles, this`tasks
      ensures Valid()
      ensures tasks == old(tasks)[k := Iterating(old(tasks[k]).dir, old(tasks[k]).rest)]
      ensures processedFiles == old(processedFiles) + 1 && pendingFiles == old(pendingFiles) - 1
    {
      CountProcessed(k);
    }

    /** `stat` answers with a size at or above the threshold: the file is
        recorded, counted as processed, and a progress message follows. */
    method StatMatched(k: nat, now: int)
      requires Valid() && k < |tasks| && tasks[k].Statting? && tasks[k].entry.stat.Some?
      requires tasks[k].entry.stat.value.size >= threshold
      modifies this`allowedPaths, this`matches, this`matchBuffer, this`matchedLog, this`events, this`lastEmit,
               this`processedFiles, this`pendingFiles, this`tasks
      ensures Valid()
      ensures tasks == old(tasks)[k := Iterating(old(tasks[k]).dir, old(tasks[k]).rest)]
      ensures processedFiles == old(processedFiles) + 1 && pendingFiles == old(pendingFiles) - 1
      ensures var r := RecordOf(old(tasks[k]).dir, old(tasks[k]).entry, Sep(platform));
        && matchedLog == old(matchedLog) + [r]
        && allowedPaths == old(allowedPaths) + {r.path}
        && matches == old(matches) + 1
        && events == old(events)
                     + (if now - old(lastEmit) >= FlushInterval then [MatchBatch(old(matchBuffer) + [r])] else [])
                     + [Progress(processedFiles, pendingFiles)]
    {
      var t := tasks[k];
      var rec := RecordOf(t.dir, t.entry, Sep(platform));
      RecordMatch(rec, now);
      ReportProcessed(k);
    }

    /** `stat` answers with a size below the threshold: the file is counted
        as processed, and a progress message follows. */
    method StatBelow(k: nat)
      requires Valid() && k < |tasks| && tasks[k].Statting? && tasks[k].entry.stat.Some?
      requires tasks[k].entry.stat.value.size < threshold
      modifies this`processedFiles, this`pendingFiles, this`tasks, this`events
      ensures Valid()
      ensures tasks == old(tasks)[k := Iterating(old(tasks[k]).dir, old(tasks[k]).rest)]
      ensures processedFiles == old(processedFiles) + 1 && pendingFiles == old(pendingFiles) - 1
      ensures matchedLog == old(matchedLog) && allowedPaths == old(allowedPaths) && matches == old(matches)
      ensures events == old(events) + [Progress(processedFiles, pendingFiles)]
    {
      ReportProcessed(k);
    }

    /** One turn of the `for await` loop of `processDir` on a running,
        unpaused session, carried through the `stat` of a regular file: the
        entry adds its record (if any), its file count and its subdirectory
        (if any) to what the session has seen; the task moves past it. */
    method NextEntry(k: nat, now: int) returns (ghost taken: seq<string>)
      requires Valid() && k < |tasks| && tasks[k].Iterating? && tasks[k].rest != []
      requires sessionRunning && !paused
      modifies this
      ensures Valid() && sessionRunning && !paused && cancelled == old(cancelled)
      ensures var t := old(tasks[k]);
        && tasks == old(tasks)[k := Iterating(t.dir, t.rest[1..])] + Openings(taken)
        && matchedLog == old(matchedLog) + MatchOf(t.dir, t.rest[0], threshold, Sep(platform))
        && processedFiles == old(processedFiles) + FileOf(t.rest[0])
        && old(queue) + SubdirOf(t.dir, t.rest[0], platform) == taken + queue
      ensures pendingFiles == old(pendingFiles)
      ensures var t := old(tasks[k]);
        events == old(events) + StatEvents(t.dir, t.rest[0], old(matchBuffer), old(lastEmit), now,
                                           threshold, Sep(platform), processedFiles, pendingFiles)
    {
      var t := tasks[k];
      var e := t.rest[0];
      var finished;
      finished, taken := ProcessEntry(k, now);
      if e.kind == RegularFile {
        match e.stat
        case None =>
          StatFailed(k);
        case Some(st) =>
          if st.size >= threshold {
            StatMatched(k, now);
          } else {
            StatBelow(k);
          }
      }
    }

    /** The `for await` loop of `processDir` run over all the entries of
        task `k` while nothing else happens: each entry is visited in
        listing order, and the task is left with none to read. */
    method VisitAll(k: nat, now: int) returns (ghost taken: seq<string>)
      requires Valid() && k < |tasks| && tasks[k].Iterating? && sessionRunning && !paused
      modifies this
      ensures Valid() && sessionRunning && !paused
      ensures cancelled == old(cancelled) && pendingFiles == old(pendingFiles)
      ensures var t := old(tasks[k]);
        && matchedLog == old(matchedLog) + MatchesIn(t.dir, t.rest, threshold, Sep(platform))
        && processedFiles == old(processedFiles) + FileCount(t.rest)
        && old(queue) + SubdirsIn(t.dir, t.rest, platform) == taken + queue
        && tasks == old(tasks)[k := Iterating(t.dir, [])] + Openings(taken)
      ensures old(events) <= events
      ensures ProgressCount(events) == ProgressCount(old(events)) + StatCount(old(tasks[k]).rest)
    {
      var dir := tasks[k].dir;
      ghost var all := tasks[k].rest;
      ghost var tasks0, q0 := tasks, queue;
      ghost var i := 0;
      taken := [];
      assert all[..0] == [] && all[0..] == all;
      assert tasks0[k := Iterating(dir, all)] + Openings([]) == tasks0;
      assert q0 + SubdirsIn(dir, [], platform) == [] + queue;
      while tasks[k].rest != []
        invariant Valid() && sessionRunning && !paused && cancelled == old(cancelled)
        invariant pendingFiles == old(pendingFiles)
        invariant 0 <= i <= |all| && k < |tasks0|
        invariant tasks == tasks0[k := Iterating(dir, all[i..])] + Openings(taken)
        invariant matchedLog == old(matchedLog) + MatchesIn(dir, all[..i], threshold, Sep(platform))
        invariant processedFiles == old(processedFiles) + FileCount(all[..i])
        invariant q0 + SubdirsIn(dir, all[..i], platform) == taken + queue
        invariant old(events) <= events
        invariant ProgressCount(events) == ProgressCount(old(events)) + StatCount(all[..i])
        decreases |all| - i
      {
        ghost var q, log, ev, buf, last := queue, matchedLog, events, matchBuffer, lastEmit;
        ghost var more := NextEntry(k, now);
        ProgressStep(old(events), ev, all, i, events[|ev|..], dir, buf, last, now, threshold, Sep(platform),
                     processedFiles, pendingFiles);
        ListingStep(dir, all, i, threshold, platform);
        LogStep(old(matchedLog), MatchesIn(dir, all[..i], threshold, Sep(platform)), log,
                MatchOf(dir, all[i], threshold, Sep(platform)), matchedLog);
        assert all[i..][1..] == all[i + 1..];
        TasksStep(tasks0, k, Iterating(dir, all[i..]), Iterating(dir, all[i + 1..]), taken, more);
        QueueStep(q0, SubdirsIn(dir, all[..i], platform), SubdirOf(dir, all[i], platform), taken, q, more, queue);
        taken, i := taken + more, i + 1;
      }
      assert all[..i] == all;
    }

    /** `processDir` on an opened directory while nothing else happens: every
        entry is visited in listing order, then the task ends. The session
        gains exactly the directory's matches and file count, and its
        subdirectories join the back of the queue in listing order. */
    method DrainDir(k: nat, now: int) returns (ghost taken: seq<string>)
      requires Valid() && k < |tasks| && tasks[k].Iterating? && sessionRunning && !paused
      modifies this
      ensures Valid() && cancelled == old(cancelled) && pendingFiles == old(pendingFiles)
      ensures var t := old(tasks[k]);
        && matchedLog == old(matchedLog) + MatchesIn(t.dir, t.rest, threshold, Sep(platform))
        && processedFiles == old(processedFiles) + FileCount(t.rest)
        && old(queue) + SubdirsIn(t.dir, t.rest, platform) == taken + queue
        && tasks == RemoveAt(old(tasks), k) + Openings(taken)
      ensures var t := old(tasks[k]);
        old(running) == 1 && old(queue) == [] && SubdirsIn(t.dir, t.rest, platform) == [] ==> Finished()
      ensures var t := old(tasks[k]);
        !(old(running) == 1 && old(queue) == [] && SubdirsIn(t.dir, t.rest, platform) == []) ==> sessionRunning
      ensures !paused
      ensures allowedPaths == old(allowedPaths) + PathsOf(MatchesIn(old(tasks[k]).dir, old(tasks[k]).rest, threshold, Sep(platform)))
      ensures old(events) <= events
      ensures ProgressCount(events) == ProgressCount(old(events)) + StatCount(old(tasks[k]).rest)
    {
      PathsOfConcat(matchedLog, MatchesIn(tasks[k].dir, tasks[k].rest, threshold, Sep(platform)));
      ghost var tasks0, dir := tasks, tasks[k].dir;
      ghost var subdirs := SubdirsIn(dir, tasks[k].rest, platform);
      taken := VisitAll(k, now);
      ghost var q1 := queue;
      assert running == |tasks0| + |taken|;
      assert running == 1 && queue == [] <==> |tasks0| == 1 && old(queue) == [] && subdirs == [] by {
        assert old(queue) + subdirs == taken + queue;
      }
      var finished;
      ghost var last;
      finished, last := ProcessEntry(k, now);
      TasksRemoveStep(tasks0, k, Iterating(dir, []), taken, last);
      assert taken + q1 == (taken + last) + queue;
      taken := taken + last;
    }

    /** `scan:stop`: clears `currentScan.running`; the tasks notice it at
        their next entry. */
    method Stop()
      requires Valid()
      modifies this`sessionRunning
      ensures Valid() && !sessionRunning
    {
      sessionRunning := false;
    }

    /** `scan:pause` */
    method Pause()
      requires Valid()
      modifies this`paused
      ensures Valid() && paused
    {
      paused := true;
    }

    /** `scan:resume`: clears `paused`; the pump it schedules with
        `setImmediate` is the separate step `DeferredPump`. */
    method Resume()
      requires Valid()
      modifies this`paused
      ensures Valid() && !paused
    {
      paused := false;
    }

    /** The callback `scan:resume` schedules: pumps if the session still runs. */
    method DeferredPump(now: int) returns (ghost taken: seq<string>)
      requires Valid()
      modifies this
      ensures Valid()
      ensures !old(sessionRunning) ==> unchanged(this) && taken == []
      ensures old(sessionRunning) ==> Settled()
      ensures old(queue) == taken + queue
      ensures tasks == old(tasks) + Openings(taken)
      ensures processedFiles == old(processedFiles) && pendingFiles == old(pendingFiles)
      ensures matchedLog == old(matchedLog) && cancelled == old(cancelled)
      ensures paused == old(paused) && allowedPaths == old(allowedPaths)
      ensures old(sessionRunning) && old(running) == 0 && old(queue) == [] ==> Finished()
      ensures old(sessionRunning) && !(old(running) == 0 && old(queue) == []) ==>
        && sessionRunning
        && events == old(events) && matchBuffer == old(matchBuffer) && lastEmit == old(lastEmit)
    {
      taken := [];
      if sessionRunning {
        taken := Pump(now);
      }
      assert tasks == tasks + Openings([]);
    }
  }
}
