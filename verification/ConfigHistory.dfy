/** Many save commands in a row: killed at any step, interrupted by reboots, with every kind of fault. */
module ConfigHistory {
  import opened Basics
  import opened ConfigFile
  import opened ConfigSave

  /** The configuration file and every other file a command may name as candidate or backup. */
  datatype Folder = Folder(source: File, others: map<string, File>)

  datatype Action =
    /** One apply or restore that ends, or is killed, in state `stoppedAt` of its trail. */
    | Command(mode: Mode, candidate: string, backup: string, sourceSha: string, candidateSha: string,
              rules: Rules, env: Environment, stoppedAt: nat)
    /** The machine goes down: every file comes back with what was on disk. */
    | Reboot(source: seq<Byte>, others: map<string, seq<Byte>>)

  /** What one command holds; a candidate that does not exist is a file that cannot be opened. */
  function Held(d: Folder, a: Action): World
    requires a.Command? && a.candidate in d.others
  {
    World(d.source, d.others[a.candidate], if a.backup in d.others then Some(d.others[a.backup]) else None)
  }

  function Trail(d: Folder, a: Action): (trail: seq<World>)
    requires a.Command? && a.candidate in d.others
    ensures trail != []
  {
    ApplyCandidate(a.mode, Held(d, a), a.sourceSha, a.candidateSha, a.rules, a.env).trail
  }

  predicate Possible(d: Folder, a: Action) {
    match a
    case Command(_, candidate, _, _, _, _, _, stoppedAt) => candidate in d.others ==> stoppedAt < |Trail(d, a)|
    case Reboot(source, others) =>
      OnDisk(d.source, source) && others.Keys == d.others.Keys && forall p <- d.others :: OnDisk(d.others[p], others[p])
  }

  function Installed(d: Folder, a: Action, w: World): Folder
    requires a.Command?
  {
    var others := d.others[a.candidate := w.candidate];
    Folder(w.source, if w.backup.Some? then others[a.backup := w.backup.value] else others)
  }

  function Act(d: Folder, a: Action): Folder
    requires Possible(d, a)
  {
    match a
    case Command(_, candidate, _, _, _, _, _, stoppedAt) =>
      if candidate in d.others then Installed(d, a, Trail(d, a)[stoppedAt]) else d
    case Reboot(source, others) =>
      Folder(File(source, 0, true), map p <- others :: File(others[p], 0, true))
  }

  predicate PossibleRun(d: Folder, run: seq<Action>)
    decreases |run|
  {
    run == [] || (Possible(d, run[0]) && PossibleRun(Act(d, run[0]), run[1..]))
  }

  function ActAll(d: Folder, run: seq<Action>): Folder
    requires PossibleRun(d, run)
    decreases |run|
  {
    if run == [] then d else ActAll(Act(d, run[0]), run[1..])
  }

  /** The bytes are on disk, as the configuration or in some other file. */
  predicate Kept(d: Folder, bytes: seq<Byte>) {
    Holds(d.source, bytes) || exists p <- d.others :: Holds(d.others[p], bytes)
  }

  /** A command never touches a file that existed before it, except the source. */
  lemma OldFilesUntouched(d: Folder, a: Action, p: string)
    requires a.Command? && Possible(d, a) && p in d.others
    ensures p in Act(d, a).others
    ensures Act(d, a).others[p].content == d.others[p].content && Act(d, a).others[p].synced == d.others[p].synced
  {
  }

  lemma SourceKept(d: Folder, a: Action)
    requires a.Command? && Possible(d, a) && d.source.synced
    ensures Kept(Act(d, a), d.source.content)
  {
    if a.candidate in d.others {
      var w, s := Held(d, a), Trail(d, a)[a.stoppedAt];
      CrashSafety(a.mode, w, a.sourceSha, a.candidateSha, a.rules, a.env, a.stoppedAt, s.source.content,
                  if s.backup.Some? then s.backup.value.content else []);
      if s.source.content != d.source.content || !s.source.synced {
        assert Act(d, a).others[a.backup] == s.backup.value;
      }
    }
  }

  lemma ActionKeeps(d: Folder, a: Action, bytes: seq<Byte>)
    requires Possible(d, a) && Kept(d, bytes)
    ensures Kept(Act(d, a), bytes)
  {
    if Holds(d.source, bytes) {
      if a.Command? {
        SourceKept(d, a);
      }
    } else {
      var p :| p in d.others && Holds(d.others[p], bytes);
      if a.Command? {
        OldFilesUntouched(d, a, p);
      }
      assert Holds(Act(d, a).others[p], bytes);
    }
  }

  /**
    No configuration that ever was on disk is lost: through any sequence of applies and restores,
    each with any faults and killed at any step, and any reboots in between.
   */
  lemma {:induction false} NothingIsEverLost(d: Folder, run: seq<Action>, bytes: seq<Byte>)
    requires PossibleRun(d, run) && Kept(d, bytes)
    ensures Kept(ActAll(d, run), bytes)
    decreases |run|
  {
    if run != [] {
      ActionKeeps(d, run[0], bytes);
      NothingIsEverLost(Act(d, run[0]), run[1..], bytes);
    }
  }
}
