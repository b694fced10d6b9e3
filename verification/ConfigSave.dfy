/** Saving a reviewed configuration behind a verified backup, and restoring it. */
module ConfigSave {
  import opened Basics
  import opened ConfigFile

  datatype WritePhase = Preflight | Backup | Source

  /** The three files one apply or restore command holds; the backup exists once it was created. */
  datatype World = World(source: File, candidate: File, backup: Option<File>)

  datatype Run = Run(trail: seq<World>, failure: Option<WritePhase>)

  function Last(r: Run): World
    requires r.trail != []
  {
    r.trail[|r.trail| - 1]
  }

  // ---------- save_after_backup ----------

  function BackupStates(w: World, files: seq<File>): seq<World> {
    seq(|files|, i requires 0 <= i < |files| => w.(backup := Some(files[i])))
  }

  function SourceStates(w: World, files: seq<File>): seq<World> {
    seq(|files|, i requires 0 <= i < |files| => w.(source := files[i]))
  }

  /** Backup first, then the caller's last checks, then the source. */
  function Save(w: World, original: seq<Byte>, candidate: seq<Byte>,
                forBackup: Script, mayWriteSource: bool, forSource: Script): (r: Run)
    requires w.backup.Some?
    ensures r.trail != []
  {
    var b := WriteVerified(w.backup.value, original, forBackup);
    var backedUp := w.(backup := Some(Final(b)));
    if b.error.Some? || !mayWriteSource then Run(BackupStates(w, b.trail), Some(Backup)) else
    var c := WriteVerified(w.source, candidate, forSource);
    Run(BackupStates(w, b.trail) + SourceStates(backedUp, c.trail),
        if c.error.Some? then Some(Source) else None)
  }

  /** The same on the held files themselves. */
  method SaveAfterBackup(source: HeldFile, backup: HeldFile, original: seq<Byte>, candidate: seq<Byte>,
                         forBackup: Script, mayWriteSource: bool, forSource: Script)
    returns (failure: Option<WritePhase>)
    requires source != backup
    modifies source, backup
    ensures forall other: File :: // the candidate file plays no part in the save
      var r := Save(World(old(source.Value()), other, Some(old(backup.Value()))), original, candidate,
                    forBackup, mayWriteSource, forSource);
      Last(r) == World(source.Value(), other, Some(backup.Value())) && failure == r.failure
    ensures failure == Some(Backup) ==> source.Value() == old(source.Value())
  {
    var error := backup.WriteAndVerify(original, forBackup);
    if error.Some? {
      return Some(Backup);
    }
    if !mayWriteSource {
      return Some(Backup);
    }
    error := source.WriteAndVerify(candidate, forSource);
    if error.Some? {
      return Some(Source);
    }
    failure := None;
  }

  // ---------- apply_candidate ----------

  datatype Mode = Apply | Restore

  /** What the command cannot see into: the digest, the schema and the provider-only comparison. */
  datatype Rules = Rules(
    sha256: seq<Byte> -> string,
    schema: seq<Byte> -> bool,
    providerOnly: (seq<Byte>, seq<Byte>) -> bool)

  /** How the rest of the environment behaves during one command. */
  datatype Environment = Environment(
    opens: bool,
    rootsUnchanged: bool,
    createsBackup: bool,
    beforeSourceWrite: bool,
    afterWrite: bool,
    forBackup: Script,
    forSource: Script)

  const Calm := Environment(true, true, true, true, true, NoFaults, NoFaults)

  predicate Readable(f: File) {
    |f.content| <= MAX_CONFIG_BYTES
  }

  /** All checks that come before any file is touched. */
  predicate Reviewed(mode: Mode, w: World, sourceSha: string, candidateSha: string, rules: Rules) {
    Readable(w.source) && Readable(w.candidate)
    && rules.sha256(w.source.content) == sourceSha
    && rules.sha256(w.candidate.content) == candidateSha
    && rules.schema(w.candidate.content)
    && (mode.Apply? ==> rules.schema(w.source.content) && rules.providerOnly(w.source.content, w.candidate.content))
  }

  /** The files as the preflight reads leave them, with the freshly created, empty backup. */
  function Prepared(w: World): World {
    World(AfterRead(Rewound(w.source)), AfterRead(Rewound(w.candidate)), Some(File([], 0, true)))
  }

  function ApplyCandidate(mode: Mode, w: World, sourceSha: string, candidateSha: string,
                          rules: Rules, env: Environment): (r: Run)
    ensures r.trail != []
  {
    if !env.opens || !Reviewed(mode, w, sourceSha, candidateSha, rules) || !env.rootsUnchanged
       || w.backup.Some? || !env.createsBackup
    then Run([w], Some(Preflight))
    else
      var r := Save(Prepared(w), w.source.content, w.candidate.content,
                    env.forBackup, env.beforeSourceWrite, env.forSource);
      Run([w] + r.trail, if r.failure.None? && !env.afterWrite then Some(Source) else r.failure)
  }

  // ---------- Crash safety ----------

  /** What may be on disk after a crash: the bytes of a synchronised file, anything otherwise. */
  predicate OnDisk(f: File, bytes: seq<Byte>) {
    f.synced ==> bytes == f.content
  }

  /** No byte of the source has changed, or the original is safe in the backup. */
  predicate Recoverable(w: World, original: seq<Byte>) {
    Holds(w.source, original) || (w.backup.Some? && Holds(w.backup.value, original))
  }

  lemma SaveIsRecoverable(w: World, original: seq<Byte>, candidate: seq<Byte>,
                          forBackup: Script, mayWriteSource: bool, forSource: Script)
    requires w.backup.Some? && Holds(w.source, original) && |original| <= MAX_CONFIG_BYTES
    ensures var r := Save(w, original, candidate, forBackup, mayWriteSource, forSource);
      forall s <- r.trail :: Recoverable(s, original) && (s.source != w.source ==> s.backup.Some? && Holds(s.backup.value, original))
  {
    ReadbackSoundExactly(original);
  }

  /**
    At every step of every apply or restore, whatever misbehaves, a crash leaves the original bytes
    in the source on disk or in the backup on disk; and a source that differs from the original in
    any way has a backup already verified.
   */
  lemma CrashSafety(mode: Mode, w: World, sourceSha: string, candidateSha: string, rules: Rules, env: Environment,
                    i: nat, sourceOnDisk: seq<Byte>, backupOnDisk: seq<Byte>)
    requires w.source.synced
    requires i < |ApplyCandidate(mode, w, sourceSha, candidateSha, rules, env).trail|
    requires var s := ApplyCandidate(mode, w, sourceSha, candidateSha, rules, env).trail[i];
      OnDisk(s.source, sourceOnDisk) && (s.backup.Some? ==> OnDisk(s.backup.value, backupOnDisk))
    ensures var s := ApplyCandidate(mode, w, sourceSha, candidateSha, rules, env).trail[i];
      && (sourceOnDisk == w.source.content || (s.backup.Some? && backupOnDisk == w.source.content))
      && (s.source.content != w.source.content || !s.source.synced ==>
            s.backup.Some? && Holds(s.backup.value, w.source.content))
      && s.candidate.content == w.candidate.content
  {
    var r := ApplyCandidate(mode, w, sourceSha, candidateSha, rules, env);
    if r.trail != [w] {
      SaveIsRecoverable(Prepared(w), w.source.content, w.candidate.content,
                        env.forBackup, env.beforeSourceWrite, env.forSource);
    }
  }

  // ---------- What is reported ----------

  /** How the blocking task ended: with the command's result, or without any. */
  datatype TaskEnd = Returned(failure: Option<WritePhase>) | Lost

  /** The phase in the failure document; a lost task is reported as if the source was reached. */
  function ReportedPhase(end: TaskEnd): Option<WritePhase> {
    match end
    case Returned(failure) => failure
    case Lost => Some(Source)
  }

  predicate SourceMayHaveChanged(end: TaskEnd) {
    ReportedPhase(end) in {None, Some(Source)}
  }

  /** A run as the caller sees it: it returned with its result, or its task was lost at any step. */
  predicate EndsAs(r: Run, end: TaskEnd, final: World)
    requires r.trail != []
  {
    if end.Returned? then end.failure == r.failure && final == Last(r) else final in r.trail
  }

  /**
    `sourceMayHaveChanged: false` is never wrong, success and source failures tell the truth, and
    however the task ended, lost ones included, the original is still to be had.
   */
  lemma ReportsAreSound(mode: Mode, w: World, sourceSha: string, candidateSha: string, rules: Rules,
                        env: Environment, end: TaskEnd, final: World)
    requires EndsAs(ApplyCandidate(mode, w, sourceSha, candidateSha, rules, env), end, final)
    ensures !SourceMayHaveChanged(end) ==>
      final.source.content == w.source.content && final.source.synced == w.source.synced
    ensures end == Returned(Some(Preflight)) ==> final == w
    ensures end == Returned(Some(Source)) ==> final.backup.Some? && Holds(final.backup.value, w.source.content)
    ensures end == Returned(None) ==> Holds(final.source, w.candidate.content)
                                      && final.backup.Some? && Holds(final.backup.value, w.source.content)
    ensures w.source.synced ==> Recoverable(final, w.source.content)
    ensures final.candidate.content == w.candidate.content
  {
    var r := ApplyCandidate(mode, w, sourceSha, candidateSha, rules, env);
    if w.source.synced && r.trail != [w] {
      SaveIsRecoverable(Prepared(w), w.source.content, w.candidate.content,
                        env.forBackup, env.beforeSourceWrite, env.forSource);
    }
    ReadbackSoundExactly(w.source.content);
    ReadbackSoundExactly(w.candidate.content);
  }

  // ---------- What is refused ----------

  /**
    Which of the four outcomes a command has, from its inputs alone. Nothing is touched unless both
    files are still the reviewed ones and pass every check; the source is not written unless the
    backup was confirmed and the last checks passed; and success needs the checks afterwards too.
   */
  lemma OutcomeIsExact(mode: Mode, w: World, sourceSha: string, candidateSha: string, rules: Rules, env: Environment)
    ensures var r := ApplyCandidate(mode, w, sourceSha, candidateSha, rules, env);
      var original, candidate := w.source.content, w.candidate.content;
      var accepted :=
        && env.opens && env.rootsUnchanged && w.backup.None? && env.createsBackup
        && |original| <= 4 * 1024 * 1024 && |candidate| <= 4 * 1024 * 1024
        && rules.sha256(original) == sourceSha && rules.sha256(candidate) == candidateSha
        && rules.schema(candidate)
        && (mode.Apply? ==> rules.schema(original) && rules.providerOnly(original, candidate));
      var backedUp := WriteVerified(File([], 0, true), original, env.forBackup).error.None?;
      var saved := WriteVerified(AfterRead(Rewound(w.source)), candidate, env.forSource).error.None?;
      && (|r.trail| > 1 <==> accepted)
      && (!accepted ==> r == Run([w], Some(Preflight)))
      && (r.failure == Some(Preflight) <==> !accepted)
      && (r.failure == Some(Backup) <==> accepted && !(backedUp && env.beforeSourceWrite))
      && (r.failure == Some(Source) <==> accepted && backedUp && env.beforeSourceWrite && !(saved && env.afterWrite))
      && (r.failure == None <==> accepted && backedUp && env.beforeSourceWrite && saved && env.afterWrite)
      && (SourceMayHaveChanged(Returned(r.failure)) <==> accepted && backedUp && env.beforeSourceWrite)
  {
  }

  /** Without the last checks before the source is written, no state of the command has it changed. */
  lemma SourceWaitsForChecks(mode: Mode, w: World, sourceSha: string, candidateSha: string, rules: Rules, env: Environment,
                             i: nat)
    requires !env.beforeSourceWrite
    requires i < |ApplyCandidate(mode, w, sourceSha, candidateSha, rules, env).trail|
    ensures var r := ApplyCandidate(mode, w, sourceSha, candidateSha, rules, env);
      && r.trail[i].source.content == w.source.content && r.trail[i].source.synced == w.source.synced
      && r.failure in {Some(Preflight), Some(Backup)}
  {
  }

  // ---------- Restore undoes an interrupted command ----------

  /** A calm command whose review passes saves the candidate behind a full backup. */
  lemma CalmCommandSaves(mode: Mode, w: World, rules: Rules)
    requires w.backup.None?
    requires Reviewed(mode, w, rules.sha256(w.source.content), rules.sha256(w.candidate.content), rules)
    ensures var r := ApplyCandidate(mode, w, rules.sha256(w.source.content), rules.sha256(w.candidate.content), rules, Calm);
      r.failure.None? && Holds(Last(r).source, w.candidate.content)
      && Last(r).backup.Some? && Holds(Last(r).backup.value, w.source.content)
      && Last(r).candidate.content == w.candidate.content
  {
    FaultlessWriteIsConfirmed(Prepared(w).backup.value, w.source.content);
    FaultlessWriteIsConfirmed(Prepared(w).source, w.candidate.content);
  }

  /** The backup on disk is the original: the source on disk has changed, or the backup was verified. */
  predicate BackedUp(w: World, s: World, residue: seq<Byte>) {
    || residue != w.source.content
    || (s.backup.Some? && Holds(s.backup.value, w.source.content) && Readable(w.source))
  }

  /**
    Crash an apply or a restore at any step with the original backed up. A calm restore from the backup
    on disk brings the original back, keeps the residue in its own backup and leaves the old backup
    alone, exactly when the residue is within the size limit and the original passes the schema;
    otherwise it touches nothing. The original of an apply that got past its checks always passes.
   */
  lemma RestoreUndoesInterruption(mode: Mode, w: World, sourceSha: string, candidateSha: string, rules: Rules,
                                  env: Environment, i: nat, residue: seq<Byte>, backupOnDisk: seq<Byte>)
    requires w.source.synced
    requires i < |ApplyCandidate(mode, w, sourceSha, candidateSha, rules, env).trail|
    requires var s := ApplyCandidate(mode, w, sourceSha, candidateSha, rules, env).trail[i];
      && OnDisk(s.source, residue) && (s.backup.Some? ==> OnDisk(s.backup.value, backupOnDisk))
      && BackedUp(w, s, residue)
    ensures var crashed := World(File(residue, 0, true), File(backupOnDisk, 0, true), None);
      var r := ApplyCandidate(Restore, crashed, rules.sha256(residue), rules.sha256(backupOnDisk), rules, Calm);
      if |residue| <= MAX_CONFIG_BYTES && rules.schema(w.source.content)
      then r.failure.None? && Holds(Last(r).source, w.source.content)
           && Last(r).backup.Some? && Holds(Last(r).backup.value, residue)
           && Last(r).candidate.content == w.source.content
      else r.failure == Some(Preflight) && Last(r) == crashed
    ensures mode.Apply? && i > 0 ==> rules.schema(w.source.content)
  {
    CrashSafety(mode, w, sourceSha, candidateSha, rules, env, i, residue, backupOnDisk);
    assert backupOnDisk == w.source.content && Readable(w.source);
    if |residue| <= MAX_CONFIG_BYTES && rules.schema(w.source.content) {
      CalmCommandSaves(Restore, World(File(residue, 0, true), File(backupOnDisk, 0, true), None), rules);
    }
  }

  /** The schema half is real: a restore over a source that does not parse cannot be undone by another. */
  lemma RestoreOverUnparsedSource(broken: seq<Byte>, good: seq<Byte>, sha256: seq<Byte> -> string)
    requires broken != good && |broken| <= MAX_CONFIG_BYTES && |good| <= MAX_CONFIG_BYTES
    ensures var rules := Rules(sha256, bytes => bytes == good, (a, b) => true);
      var w := World(File(broken, 0, true), File(good, 0, true), None);
      var r := ApplyCandidate(Restore, w, sha256(broken), sha256(good), rules, Calm);
      && r.failure.None? && Holds(Last(r).source, good) && Last(r).backup.Some?
      && var back := World(Last(r).source, Last(r).backup.value, None);
         ApplyCandidate(Restore, back, sha256(good), sha256(broken), rules, Calm).failure == Some(Preflight)
  {
    var rules := Rules(sha256, bytes => bytes == good, (a, b) => true);
    CalmCommandSaves(Restore, World(File(broken, 0, true), File(good, 0, true), None), rules);
  }
}
