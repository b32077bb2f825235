/** TFileHandler: a log file of bounded size and its numbered backups. */
module FileRotation {
  import opened Common

  /** A file's content: the messages written to it. */
  type Content = seq<string>

  /** The current file, and its name with ".n" appended. */
  datatype Name = Current | Backup(n: nat)

  function Size(c: Content): nat { if c == [] then 0 else Size(c[..|c| - 1]) + |c[|c| - 1]| }

  type Directory = map<Name, Content>

  /** The backup with a number, if it exists. */
  function BackupAt(dir: Directory, n: nat): Option<Content> { if Backup(n) in dir then Some(dir[Backup(n)]) else None }

  function CurrentOf(dir: Directory): Option<Content> { if Current in dir then Some(dir[Current]) else None }

  // ---------------------------------------------------------------------------------- The files, newest first

  /** At most this many backups are kept: without any allowed, the rename to ".1" still makes one. */
  function Limit(backups: nat): nat { if backups == 0 then 1 else backups }

  /** One message more: appended to the newest file, or, when it would pass the size limit, alone in a new one. */
  function Handled(files: seq<Content>, message: string, maxSize: nat, backups: nat): (r: seq<Content>)
    requires files != []
    ensures r != []
  {
    if Size(files[0]) + |message| > maxSize then [[message]] + Kept(files, backups)
    else [files[0] + [message]] + files[1..]
  }

  /** The files that are still there after a rotation: the oldest goes when there are too many. */
  function Kept(files: seq<Content>, backups: nat): seq<Content> {
    if |files| > Limit(backups) then files[..Limit(backups)] else files
  }

  /** The directory holds exactly these files: the current one and the backups 1, 2, ... in order of age. */
  ghost predicate Represents(dir: Directory, files: seq<Content>) {
    && files != []
    && CurrentOf(dir) == Some(files[0])
    && forall n: nat {:trigger BackupAt(dir, n)} ::
         BackupAt(dir, n) == (if 1 <= n < |files| then Some(files[n]) else None)
  }

  // ---------------------------------------------------------------------------------- The handler

  /** Where backup n comes from in a rotation. */
  ghost predicate Rotated(before: Directory, after: Directory, backups: nat) {
    && CurrentOf(after) == Some([])
    && forall n: nat {:trigger BackupAt(after, n)} :: BackupAt(after, n) == (
         if n == 1 then CurrentOf(before)
         else if 2 <= n <= backups then BackupAt(before, n - 1)
         else if n == backups then None
         else BackupAt(before, n))
  }

  /** Backups above i + 1 have been moved up by one, and i + 1 is vacant. */
  ghost predicate Shifted(before: Directory, now: Directory, i: int, backups: nat)
    requires i >= -1
  {
    && CurrentOf(now) == CurrentOf(before) && Current in now
    && forall n: nat {:trigger BackupAt(now, n)} :: BackupAt(now, n) == (
         if i + 1 < n <= backups then BackupAt(before, n - 1)
         else if n == i + 1 then None
         else BackupAt(before, n))
  }

  lemma StartShift(dir: Directory, backups: nat)
    requires Current in dir
    ensures Shifted(dir, if Backup(backups) in dir then dir - {Backup(backups)} else dir, backups - 1, backups)
  {
    var without := if Backup(backups) in dir then dir - {Backup(backups)} else dir;
    forall n: nat ensures BackupAt(without, n) == (if n == backups then None else BackupAt(dir, n)) {}
  }

  lemma StepShift(before: Directory, now: Directory, i: nat, backups: nat)
    requires 0 < i < backups && Shifted(before, now, i, backups)
    ensures Shifted(before, if Backup(i) in now then now[Backup(i + 1) := now[Backup(i)]] - {Backup(i)}
      else now, i - 1, backups)
  {
    var after := if Backup(i) in now then now[Backup(i + 1) := now[Backup(i)]] - {Backup(i)} else now;
    assert BackupAt(now, i) == BackupAt(before, i) && BackupAt(now, i + 1) == None;
    forall n: nat
      ensures BackupAt(after, n) ==
      (if n == i + 1 then BackupAt(now, i) else if n == i then None else BackupAt(now, n)) {}
  }

  lemma EndShift(before: Directory, now: Directory, i: int, backups: nat)
    requires (i == 0 && backups > 0) || (i == -1 && backups == 0)
    requires Shifted(before, now, i, backups)
    ensures Rotated(before, (now[Backup(1) := now[Current]] - {Current})[Current := []], backups)
  {
    var after := (now[Backup(1) := now[Current]] - {Current})[Current := []];
    forall n: nat ensures BackupAt(after, n) == (if n == 1 then CurrentOf(now) else BackupAt(now, n)) {}
  }

  class FileHandler {
    const maxFileSize: nat
    const maxBackupCount: nat
    var dir: Directory
    var currentFileSize: nat

    /** Opens a file that is there, or an empty one. */
    constructor (dir: Directory, maxFileSize: nat, maxBackupCount: nat)
      ensures this.maxFileSize == maxFileSize && this.maxBackupCount == maxBackupCount
      ensures this.dir == if Current in dir then dir else dir[Current := []]
      ensures currentFileSize == Size(this.dir[Current])
    {
      this.maxFileSize, this.maxBackupCount := maxFileSize, maxBackupCount;
      var found := if Current in dir then dir else dir[Current := []];
      this.dir := found;
      currentFileSize := Size(found[Current]);
    }

    /** RotateLogFile: each backup is renamed to the next number, the oldest first. */
    method RotateLogFile()
      requires Current in dir
      modifies this
      ensures Rotated(old(dir), dir, maxBackupCount) && currentFileSize == 0
    {
      hide BackupAt, CurrentOf;
      StartShift(dir, maxBackupCount);
      if Backup(maxBackupCount) in dir { dir := dir - {Backup(maxBackupCount)}; }
      var i: int := maxBackupCount - 1;
      while i > 0
        invariant -1 <= i < maxBackupCount && (i == -1 ==> maxBackupCount == 0)
        invariant Shifted(old(dir), dir, i, maxBackupCount)
      {
        StepShift(old(dir), dir, i, maxBackupCount);
        if Backup(i) in dir { dir := dir[Backup(i + 1) := dir[Backup(i)]] - {Backup(i)}; }
        i := i - 1;
      }
      EndShift(old(dir), dir, i, maxBackupCount);
      dir := dir[Backup(1) := dir[Current]] - {Current};
      dir := dir[Current := []];
      currentFileSize := 0;
    }

    /** Handle, for a message that passes the level filter. */
    method Handle(message: string, ghost files: seq<Content>)
      requires Represents(dir, files) && |files| <= Limit(maxBackupCount) + 1 && currentFileSize == Size(files[0])
      modifies this
      ensures Represents(dir, Handled(files, message, maxFileSize, maxBackupCount))
      ensures currentFileSize == Size(Handled(files, message, maxFileSize, maxBackupCount)[0])
    {
      hide Size, Rotated, Kept;
      ghost var before := dir;
      ghost var now := files;
      if currentFileSize + |message| > maxFileSize {
        RotateLogFile();
        now := [[]] + Kept(files, maxBackupCount);
        RotationShifts(before, dir, files, maxBackupCount);
        NoMessages();
      }
      SizeAppend(now[0], message);
      Written(dir, now, message);
      dir := dir[Current := dir[Current] + [message]];
      currentFileSize := currentFileSize + |message|;
      HandledIs(files, message, maxFileSize, maxBackupCount);
    }
  }

  lemma NoMessages()
    ensures Size([]) == 0
  {}

  lemma Written(dir: Directory, files: seq<Content>, message: string)
    requires Represents(dir, files)
    ensures Represents(dir[Current := dir[Current] + [message]], [files[0] + [message]] + files[1..])
  {
    assert dir[Current] == files[0];
    var after, now := dir[Current := dir[Current] + [message]], [files[0] + [message]] + files[1..];
    forall n: nat ensures BackupAt(after, n) == (if 1 <= n < |now| then Some(now[n]) else None) {
      assert BackupAt(after, n) == BackupAt(dir, n);
    }
  }

  lemma HandledIs(files: seq<Content>, message: string, maxSize: nat, backups: nat)
    requires files != []
    ensures Handled(files, message, maxSize, backups) ==
            var now := if Size(files[0]) + |message| > maxSize then [[]] + Kept(files, backups) else files;
            [now[0] + [message]] + now[1..]
  {
    hide Size, Kept;
    var kept := Kept(files, backups);
    assert ([[]] + kept)[1..] == kept && [] + [message] == [message];
  }

  lemma SizeAppend(c: Content, message: string)
    ensures Size(c + [message]) == Size(c) + |message|
  {
    assert (c + [message])[..|c|] == c;
  }

  /** The renaming is a shift of the list of files. */
  lemma RotationShifts(before: Directory, after: Directory, files: seq<Content>, backups: nat)
    requires Represents(before, files) && Rotated(before, after, backups) && |files| <= Limit(backups) + 1
    ensures Represents(after, [[]] + Kept(files, backups))
  {
    hide BackupAt, CurrentOf;
    var shifted := [[]] + Kept(files, backups);
    forall n: nat ensures BackupAt(after, n) == (if 1 <= n < |shifted| then Some(shifted[n]) else None) {
      assert BackupAt(before, n) == (if 1 <= n < |files| then Some(files[n]) else None);
      if n >= 1 {
        var m := n - 1;
        assert BackupAt(before, m) == (if 1 <= m < |files| then Some(files[m]) else None);
      }
    }
  }

  // ---------------------------------------------------------------------------------- Runs

  /** The files after some messages, from an empty or short enough file without backups. */
  function Run(first: Content, messages: seq<string>, maxSize: nat, backups: nat): (r: seq<Content>)
    ensures r != []
  {
    if messages == [] then [first]
    else Handled(Run(first, messages[..|messages| - 1], maxSize, backups), messages[|messages| - 1], maxSize, backups)
  }

  /** All messages in the files, oldest first. */
  function Messages(files: seq<Content>): seq<string> { if files == [] then [] else Messages(files[1..]) + files[0] }

  ghost predicate IsSuffix(a: seq<string>, b: seq<string>) { |a| <= |b| && a == b[|b| - |a|..] }

  lemma {:induction false} MessagesOfPrefix(files: seq<Content>, n: nat)
    requires n <= |files|
    ensures Messages(files) == Messages(files[n..]) + Messages(files[..n])
    decreases n
  {
    if n == 0 {
      assert files[0..] == files && Messages(files[..0]) == [];
    } else {
      MessagesOfPrefix(files[1..], n - 1);
      assert files[1..][n - 1..] == files[n..] && files[1..][..n - 1] == files[..n][1..];
      assert Messages(files) == Messages(files[n..]) + Messages(files[..n][1..]) + files[0];
    }
  }

  lemma FirstMessages(first: Content, rest: seq<Content>)
    ensures Messages([first] + rest) == Messages(rest) + first
  {
    assert ([first] + rest)[1..] == rest;
  }

  lemma SuffixAfter(a: seq<string>, b: seq<string>)
    ensures IsSuffix(b, a + b)
  {}

  /** One message more: the files hold what they held and the message, less at most a beginning. */
  lemma HandledMessages(files: seq<Content>, message: string, maxSize: nat, backups: nat)
    requires files != []
    ensures IsSuffix(Messages(Handled(files, message, maxSize, backups)), Messages(files) + [message])
    ensures |files| <= Limit(backups) ==>
      Messages(Handled(files, message, maxSize, backups)) == Messages(files) + [message]
  {
    hide IsSuffix, Size, Messages;
    if Size(files[0]) + |message| > maxSize {
      var kept := Kept(files, backups);
      FirstMessages([message], kept);
      if |files| > Limit(backups) {
        MessagesOfPrefix(files, Limit(backups));
        var dropped := Messages(files[Limit(backups)..]);
        SuffixAfter(dropped, Messages(kept) + [message]);
        assert dropped + (Messages(kept) + [message]) == dropped + Messages(kept) + [message];
      } else {
        SuffixAfter([], Messages(kept) + [message]);
        assert [] + (Messages(kept) + [message]) == Messages(kept) + [message];
      }
    } else {
      FirstMessages(files[0] + [message], files[1..]);
      FirstMessages(files[0], files[1..]);
      assert files == [files[0]] + files[1..];
      assert Messages(files[1..]) + (files[0] + [message]) == Messages(files[1..]) + files[0] + [message];
      SuffixAfter([], Messages(files) + [message]);
      assert [] + (Messages(files) + [message]) == Messages(files) + [message];
    }
  }

  lemma SuffixTrans(a: seq<string>, b: seq<string>, c: seq<string>, last: string)
    requires IsSuffix(a, b + [last]) && IsSuffix(b, c)
    ensures IsSuffix(a, c + [last])
  {
    var d := c[..|c| - |b|];
    assert c + [last] == d + (b + [last]);
  }

  /** A file over the limit holds one message alone. */
  predicate Fits(c: Content, maxSize: nat) { Size(c) <= maxSize || |c| == 1 }

  /** A file was closed only because the first message of the next one did not fit any more. */
  ghost predicate ClosedFull(older: Content, newer: Content, maxSize: nat) {
    newer != [] && Size(older) + |newer[0]| > maxSize
  }

  ghost predicate Full(files: seq<Content>, maxSize: nat) {
    forall i, j :: 0 <= i < j < |files| && j == i + 1 ==> ClosedFull(files[j], files[i], maxSize)
  }

  ghost predicate RunInvariant(files: seq<Content>, log: seq<string>, maxSize: nat, backups: nat) {
    && files != [] && |files| <= Limit(backups) + 1
    && IsSuffix(Messages(files), log)
    && (forall i :: 0 <= i < |files| ==> Fits(files[i], maxSize))
    && Full(files, maxSize)
  }

  lemma HandledKeeps(files: seq<Content>, log: seq<string>, message: string, maxSize: nat, backups: nat)
    requires RunInvariant(files, log, maxSize, backups)
    ensures RunInvariant(Handled(files, message, maxSize, backups), log + [message], maxSize, backups)
  {
    hide IsSuffix, Size, Messages, Full, Fits, ClosedFull;
    var after := Handled(files, message, maxSize, backups);
    HandledMessages(files, message, maxSize, backups);
    SuffixTrans(Messages(after), Messages(files), log, message);
    HandledFits(files, message, maxSize);
    HandledFull(files, message, maxSize, backups);
  }

  lemma HandledFits(files: seq<Content>, message: string, maxSize: nat)
    requires files != [] && Fits(files[0], maxSize)
    ensures Size(files[0]) + |message| <= maxSize ==> Fits(files[0] + [message], maxSize)
    ensures Fits([message], maxSize)
  {
    SizeAppend(files[0], message);
  }

  lemma HandledFull(files: seq<Content>, message: string, maxSize: nat, backups: nat)
    requires files != [] && Full(files, maxSize)
    ensures Full(Handled(files, message, maxSize, backups), maxSize)
  {
    hide Size;
    var after := Handled(files, message, maxSize, backups);
    var rotates := Size(files[0]) + |message| > maxSize;
    forall i, j | 0 <= i < j < |after| && j == i + 1 ensures ClosedFull(after[j], after[i], maxSize) {
      if rotates {
        assert after[j] == files[i];
        if i > 0 { assert after[i] == files[i - 1] && ClosedFull(files[i], files[i - 1], maxSize); }
      } else {
        assert after[j] == files[j] && ClosedFull(files[j], files[i], maxSize);
      }
    }
  }

  lemma OnlyFile(first: Content)
    ensures Messages([first]) == first
  {
    assert [first][1..] == [] && [] + first == first;
  }

  lemma StartKeeps(first: Content, maxSize: nat, backups: nat)
    requires Size(first) <= maxSize
    ensures RunInvariant([first], first, maxSize, backups)
  {
    hide Size;
    OnlyFile(first);
    assert first[0..] == first;
  }

  /** In every run there are at most as many backups as allowed; together with the current file they hold the last
      messages, none missing in between, in order; a file over the limit holds exactly one message; and no file was
      closed early. */
  lemma {:induction false} RunKeeps(first: Content, messages: seq<string>, maxSize: nat, backups: nat)
    requires Size(first) <= maxSize
    ensures RunInvariant(Run(first, messages, maxSize, backups), first + messages, maxSize, backups)
  {
    hide IsSuffix, Size, Messages, Handled, RunInvariant;
    if messages == [] {
      StartKeeps(first, maxSize, backups);
      assert first + messages == first;
    } else {
      var init, last := messages[..|messages| - 1], messages[|messages| - 1];
      RunKeeps(first, init, maxSize, backups);
      HandledKeeps(Run(first, init, maxSize, backups), first + init, last, maxSize, backups);
      assert first + messages == first + init + [last];
    }
  }

  /** Nothing is dropped before all the backups are in use. */
  lemma {:induction false} NothingDroppedEarly(first: Content, messages: seq<string>, maxSize: nat, backups: nat)
    requires |Run(first, messages, maxSize, backups)| <= Limit(backups)
    ensures Messages(Run(first, messages, maxSize, backups)) == first + messages
  {
    if messages == [] {
      OnlyFile(first);
      assert first + messages == first;
    } else {
      var init, last := messages[..|messages| - 1], messages[|messages| - 1];
      var before := Run(first, init, maxSize, backups);
      FilesGrow(before, last, maxSize, backups);
      NothingDroppedEarly(first, init, maxSize, backups);
      HandledMessages(before, last, maxSize, backups);
      assert first + messages == first + init + [last];
    }
  }

  lemma FilesGrow(files: seq<Content>, message: string, maxSize: nat, backups: nat)
    requires files != [] && |Handled(files, message, maxSize, backups)| <= Limit(backups)
    ensures |files| <= Limit(backups)
  {}
}
