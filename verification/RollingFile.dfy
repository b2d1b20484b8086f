/** The rolling file appender over a disk of numbered files: file 0 is the log file, file i its
    i-th backup. Backup names are taken to be distinct, and writes and renames to succeed. */
module RollingFile {

  type Disk = map<nat, string>

  function File(disk: Disk, i: nat): string {
    if i in disk then disk[i] else ""
  }

  class RollingFileAppender {
    var disk: Disk
    const maxBackupIndex: nat
    const maxFileSize: nat
    const truncates: bool   // opened with O_TRUNC instead of for appending

    /** The log file is open, so it exists. */
    ghost predicate Valid()
      reads this
    {
      0 in disk
    }

    constructor (disk: Disk, maxBackupIndex: nat, maxFileSize: nat, truncates: bool)
      ensures Valid() && this.disk == disk[0 := if truncates || 0 !in disk then "" else disk[0]]
      ensures this.maxBackupIndex == (if maxBackupIndex > 0 then maxBackupIndex else 1)
      ensures this.maxFileSize == maxFileSize && this.truncates == truncates
    {
      this.maxBackupIndex := if maxBackupIndex > 0 then maxBackupIndex else 1;
      this.maxFileSize, this.truncates := maxFileSize, truncates;
      this.disk := Opened(disk, truncates);
    }

    /** rename(2); renaming a file that does not exist fails, and the failure is ignored. */
    method Rename(from: nat, to: nat)
      requires from != to
      modifies this
      ensures disk == Renamed(old(disk), from, to)
    {
      if from in disk {
        disk := disk[to := disk[from]] - {from};
      }
    }

    method RollOver()
      requires Valid()
      modifies this
      ensures Valid() && disk == Rolled(old(disk), maxBackupIndex, truncates)
    {
      if maxBackupIndex > 0 {
        var last := maxBackupIndex;
        disk := disk - {last};
        var i := maxBackupIndex;
        while i > 1
          invariant 1 <= i == last <= maxBackupIndex
          invariant MovedUp(old(disk), disk, i, maxBackupIndex)
        {
          RenameMovesUp(old(disk), disk, i, maxBackupIndex);
          Rename(i - 1, last);
          last := i - 1;
          i := i - 1;
        }
        RenameMovesUp(old(disk), disk, 1, maxBackupIndex);
        Rename(0, last);
        RolledUnique(old(disk), disk, maxBackupIndex, truncates);
      }
      disk := Opened(disk, truncates);
    }

    /** Log one formatted message, then roll if the file has reached its size. */
    method Append(message: string)
      requires Valid()
      modifies this
      ensures Valid() && disk == Logged(old(disk), maxBackupIndex, maxFileSize, truncates, message)
      ensures var written := old(disk)[0 := old(disk[0]) + message];
        disk == if |written[0]| < maxFileSize then written else Rolled(written, maxBackupIndex, truncates)
    {
      disk := disk[0 := disk[0] + message];
      if |disk[0]| >= maxFileSize {
        RollOver();
      }
    }
  }

  /** open(2) of the log file with O_CREAT. */
  function Opened(disk: Disk, truncates: bool): Disk {
    disk[0 := if truncates then "" else File(disk, 0)]
  }

  /** What a rotation is for: every file moves up one number, the last backup goes, file 0 starts empty. */
  function Rolled(disk: Disk, max: nat, truncates: bool): (d: Disk)
    ensures 0 in d
  {
    if max == 0 then Opened(disk, truncates)
    else (map k | k in disk.Keys + Successors(disk.Keys) && (if 1 <= k <= max then k - 1 in disk else k in disk)
                :: if 1 <= k <= max then disk[k - 1] else disk[k])[0 := ""]
  }

  /** The rename chain has reached file i: the files above it hold what was one below, i is free. */
  ghost predicate MovedUp(was: Disk, now: Disk, i: nat, max: nat) {
    && (forall k: nat :: k < i || k > max ==> Same(was, k, now, k))
    && i !in now
    && (forall k: nat :: i < k <= max ==> CameUp(was, now, k))
  }

  predicate CameUp(was: Disk, now: Disk, k: nat)
    requires k > 0
  {
    Same(was, k - 1, now, k)
  }

  function Renamed(disk: Disk, from: nat, to: nat): Disk {
    if from in disk then disk[to := disk[from]] - {from} else disk
  }

  lemma RenameMovesUp(was: Disk, now: Disk, i: nat, max: nat)
    requires MovedUp(was, now, i, max) && 1 <= i <= max
    ensures MovedUp(was, Renamed(now, i - 1, i), i - 1, max)
  {
    var then' := Renamed(now, i - 1, i);
    forall k: nat | k < i - 1 || k > max ensures Same(was, k, then', k) {
      assert Same(was, k, now, k);
    }
    forall k: nat | i - 1 < k <= max ensures CameUp(was, then', k) {
      assert k > i ==> CameUp(was, now, k);
      assert Same(was, i - 1, now, i - 1);
    }
  }

  predicate Same(was: Disk, j: nat, now: Disk, k: nat) {
    (j in was <==> k in now) && (j in was ==> was[j] == now[k])
  }

  lemma RolledUnique(was: Disk, now: Disk, max: nat, truncates: bool)
    requires max > 0 && MovedUp(was, now, 0, max)
    ensures Opened(now, truncates) == Rolled(was, max, truncates)
  {
    var a, b := Opened(now, truncates), Rolled(was, max, truncates);
    forall k: nat ensures Same(a, k, b, k) {
      assert 1 <= k && k - 1 in was ==> k in Successors(was.Keys);
      assert 1 <= k <= max ==> CameUp(was, now, k);
      assert k > max ==> Same(was, k, now, k);
    }
    assert forall k :: k in a <==> Same(a, k, b, k) && k in b;
  }

  function Successors(ks: set<nat>): set<nat> {
    set k | k in ks :: k + 1
  }

  function Logged(disk: Disk, max: nat, limit: nat, truncates: bool, message: string): (d: Disk)
    requires 0 in disk
    ensures 0 in d
  {
    var written := disk[0 := disk[0] + message];
    if |written[0]| >= limit then Rolled(written, max, truncates) else written
  }

  // ---------------------------------------------------------------------------------------
  // What rotation keeps
  // ---------------------------------------------------------------------------------------

  /** Backup k down to backup 1, then the log file: the history still on disk, oldest first. */
  function History(disk: Disk, k: nat): string {
    if k == 0 then File(disk, 0) else File(disk, k) + History(disk, k - 1)
  }

  /** What a rotation gives up. */
  function Lost(disk: Disk, max: nat, truncates: bool): string {
    if max > 0 then File(disk, max) else if truncates then File(disk, 0) else ""
  }

  /** File by file: each moves up one number, if it is there; the log file begins anew, unless there is
      no backup to move it to and it is reopened for appending; files beyond the backups are left alone. */
  lemma RolledLaw(disk: Disk, max: nat, truncates: bool, k: nat)
    ensures var now := Rolled(disk, max, truncates);
      && (1 <= k <= max ==> (k in now <==> k - 1 in disk) && File(now, k) == File(disk, k - 1))
      && (k == 0 ==> k in now && File(now, k) == if max > 0 || truncates then "" else File(disk, k))
      && (k > max ==> (k in now <==> k in disk || k == 0))
      && (k > max && k > 0 ==> File(now, k) == File(disk, k))
  {
    assert k > 0 && k - 1 in disk ==> k in Successors(disk.Keys);
  }

  lemma {:induction false} RolledHistory(disk: Disk, max: nat, truncates: bool, k: nat)
    requires 1 <= k <= max
    ensures History(Rolled(disk, max, truncates), k) == History(disk, k - 1)
  {
    if k <= 1 {
    } else {
      RolledHistory(disk, max, truncates, k - 1);
    }
  }

  /** A rotation loses exactly the oldest backup. */
  lemma RotationLosesOldest(disk: Disk, max: nat, truncates: bool)
    ensures Lost(disk, max, truncates) + History(Rolled(disk, max, truncates), max) == History(disk, max)
  {
    if max > 0 {
      RolledHistory(disk, max, truncates, max);
    }
  }

  lemma {:induction false} HistoryGrows(disk: Disk, k: nat, message: string)
    requires 0 in disk
    ensures History(disk[0 := disk[0] + message], k) == History(disk, k) + message
  {
    if k == 0 {
    } else {
      HistoryGrows(disk, k - 1, message);
      assert File(disk, k) + (History(disk, k - 1) + message) == File(disk, k) + History(disk, k - 1) + message;
    }
  }

  /** A file that was rotated away, and the message that made it full. */
  datatype Rotation = Rotation(content: string, message: string)

  datatype Run = Run(disk: Disk, lost: string, rotations: seq<Rotation>)

  predicate Rotates(disk: Disk, limit: nat, message: string) {
    |File(disk, 0)| + |message| >= limit
  }

  /** Log one more message, noting what a rotation moves and loses. */
  function Next(r: Run, max: nat, limit: nat, truncates: bool, message: string): (n: Run)
    requires 0 in r.disk
    ensures 0 in n.disk
  {
    var content := r.disk[0] + message;
    var after := Logged(r.disk, max, limit, truncates, message);
    if Rotates(r.disk, limit, message)
    then Run(after, r.lost + Lost(r.disk[0 := content], max, truncates), r.rotations + [Rotation(content, message)])
    else Run(after, r.lost, r.rotations)
  }

  function LogAll(disk: Disk, max: nat, limit: nat, truncates: bool, messages: seq<string>): (r: Run)
    requires 0 in disk
    ensures 0 in r.disk
  {
    if messages == [] then Run(disk, "", [])
    else Next(LogAll(disk, max, limit, truncates, messages[..|messages| - 1]),
              max, limit, truncates, messages[|messages| - 1])
  }

  function Joined(messages: seq<string>): string {
    if messages == [] then "" else Joined(messages[..|messages| - 1]) + messages[|messages| - 1]
  }

  lemma NextHistory(r: Run, max: nat, limit: nat, truncates: bool, message: string)
    requires 0 in r.disk
    ensures var n := Next(r, max, limit, truncates, message);
      n.lost + History(n.disk, max) == r.lost + History(r.disk, max) + message
  {
    var written := r.disk[0 := r.disk[0] + message];
    var rest := History(Rolled(written, max, truncates), max);
    HistoryGrows(r.disk, max, message);
    RotationLosesOldest(written, max, truncates);
    assert r.lost + (History(r.disk, max) + message) == r.lost + History(r.disk, max) + message;
    assert r.lost + (Lost(written, max, truncates) + rest) == r.lost + Lost(written, max, truncates) + rest;
  }

  /** Over any run, what was lost, then the backups from oldest to newest, then the log file, are
      exactly what was there initially followed by everything logged. So the files on disk are
      always a suffix of it. */
  lemma {:induction false} HistoryIsSuffix(disk: Disk, max: nat, limit: nat, truncates: bool, messages: seq<string>)
    requires 0 in disk
    ensures var r := LogAll(disk, max, limit, truncates, messages);
      r.lost + History(r.disk, max) == History(disk, max) + Joined(messages)
  {
    if messages == [] {
    } else {
      var earlier, message := messages[..|messages| - 1], messages[|messages| - 1];
      HistoryIsSuffix(disk, max, limit, truncates, earlier);
      NextHistory(LogAll(disk, max, limit, truncates, earlier), max, limit, truncates, message);
      assert History(disk, max) + (Joined(earlier) + message) == History(disk, max) + Joined(earlier) + message;
    }
  }

  ghost predicate BackupIs(r: Run, max: nat, i: nat) {
    1 <= i <= max && i <= |r.rotations| ==> File(r.disk, i) == r.rotations[|r.rotations| - i].content
  }

  lemma NextBackup(r: Run, max: nat, limit: nat, truncates: bool, message: string, i: nat)
    requires 0 in r.disk && 1 <= i <= max && BackupIs(r, max, i) && BackupIs(r, max, i - 1)
    ensures BackupIs(Next(r, max, limit, truncates, message), max, i)
  {
    if Rotates(r.disk, limit, message) {
      RolledLaw(r.disk[0 := r.disk[0] + message], max, truncates, i);
    }
  }

  /** The i-th backup is the i-th last file rotated away: nothing is skipped or swapped. */
  lemma {:induction false} BackupsAreRotations(disk: Disk, max: nat, limit: nat, truncates: bool,
                                               messages: seq<string>, i: nat)
    requires 0 in disk
    ensures BackupIs(LogAll(disk, max, limit, truncates, messages), max, i)
  {
    if messages == [] || !(1 <= i <= max) {
    } else {
      var earlier, message := messages[..|messages| - 1], messages[|messages| - 1];
      BackupsAreRotations(disk, max, limit, truncates, earlier, i);
      BackupsAreRotations(disk, max, limit, truncates, earlier, i - 1);
      NextBackup(LogAll(disk, max, limit, truncates, earlier), max, limit, truncates, message, i);
    }
  }

  /** Every rotated file has reached the limit. */
  lemma {:induction false} RotatedFull(disk: Disk, max: nat, limit: nat, truncates: bool, messages: seq<string>)
    requires 0 in disk
    ensures forall x :: x in LogAll(disk, max, limit, truncates, messages).rotations ==> |x.content| >= limit
  {
    if messages == [] {
    } else {
      RotatedFull(disk, max, limit, truncates, messages[..|messages| - 1]);
    }
  }

  /** A rotation empties the log file, unless there is no backup to move it to and it is reopened
      for appending. */
  predicate Empties(max: nat, truncates: bool) {
    max > 0 || truncates
  }

  ghost predicate OnlyLastExceeds(r: Run, limit: nat) {
    forall x :: x in r.rotations ==> |x.content| - |x.message| < limit
  }

  /** If the log file began below the limit, it is below it after every message exactly if rotations
      empty it or there was none; and each rotated file was below the limit until its last message
      exactly if rotations empty it or there was at most one. */
  lemma {:induction false} RotatedFileSizes(disk: Disk, max: nat, limit: nat, truncates: bool, messages: seq<string>)
    requires 0 in disk && |disk[0]| < limit
    ensures var r := LogAll(disk, max, limit, truncates, messages);
      && (|r.disk[0]| < limit <==> Empties(max, truncates) || r.rotations == [])
      && (OnlyLastExceeds(r, limit) <==> Empties(max, truncates) || |r.rotations| <= 1)
  {
    if messages == [] {
    } else {
      var earlier := messages[..|messages| - 1];
      RotatedFileSizes(disk, max, limit, truncates, earlier);
    }
  }

  /** Logging message after message on the disk is the run. */
  method LogEach(appender: RollingFileAppender, messages: seq<string>)
    requires appender.Valid()
    modifies appender
    ensures appender.Valid()
    ensures var r := LogAll(old(appender.disk), appender.maxBackupIndex, appender.maxFileSize,
                            appender.truncates, messages);
      appender.disk == r.disk
  {
    ghost var start := appender.disk;
    for i := 0 to |messages|
      invariant appender.Valid()
      invariant appender.disk ==
        LogAll(start, appender.maxBackupIndex, appender.maxFileSize, appender.truncates, messages[..i]).disk
    {
      assert messages[..i + 1][..i] == messages[..i];
      appender.Append(messages[i]);
    }
    assert messages[..|messages|] == messages;
  }
}
