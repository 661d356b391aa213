/**
 * The snapshot store: `ConfigManager` in src/config.rs. The file system under it
 * is abstracted to one directory of entries (the snapshots) plus the live
 * multiplexer config file; paths, the home directory lookup and the OS calls
 * become fields of `FileSystem` and the outcomes the spec functions below give.
 */
module Store {
  import opened Wrappers
  import opened StringOrder

  /** Raw file contents: only ever copied, never interpreted. */
  type Bytes = seq<bv8>

  /** An entry name as the OS reports it; `to_str` fails on names that are not UTF-8. */
  datatype FileName = Utf8(text: string) | NonUtf8(raw: seq<bv8>)

  /** What a directory entry is: a regular file with contents, or a sub-directory. */
  datatype Node = File(contents: Bytes) | Directory

  /** OS-level failures the model can tell apart from its own state. */
  datatype IoFailure =
    | NotARegularFile   // copying from a path that is a directory
    | IsADirectory      // removing, or copying onto, a path that is a directory
    | NoSuchDirectory   // copying into a snapshot directory that does not exist

  datatype Error =
    | HomeDirUnavailable
    | ConfigNotFound(name: string)
    | NoLiveConfig
    | Io(failure: IoFailure)

  /** The text the error displays as. */
  function Message(e: Error): string {
    match e
    case HomeDirUnavailable => "Could not find home directory"
    case ConfigNotFound(name) => "Config file not found: " + name
    case NoLiveConfig => "No tmux config file found at ~/.tmux.conf"
    case Io(_) => "I/O error"
  }

  /** `Result<(), Box<dyn Error>>`. */
  datatype Outcome = Pass | Fail(error: Error)

  /** `Result<T, Box<dyn Error>>`. */
  datatype Result<T> = Ok(value: T) | Err(error: Error)

  /** The part of the file system the store sees: whether the snapshot directory
      exists, its entries, and the live config file (absent or its contents). */
  datatype Disk = Disk(dirExists: bool, dir: map<FileName, Node>, live: Option<Bytes>) {
    /** A directory that does not exist has no entries. */
    predicate Valid() {
      !dirExists ==> dir == map[]
    }
  }

  /** `name` is listed: a regular file directly in the snapshot directory, with a UTF-8 name. */
  predicate IsListed(d: Disk, name: string) {
    Utf8(name) in d.dir && d.dir[Utf8(name)].File?
  }

  /** `configs` is the listing of `d`: ascending, without repetitions, and holding
      exactly the listed names. */
  ghost predicate IsListing(configs: seq<string>, d: Disk) {
    Sorted(configs) && Distinct(configs) && forall x :: x in configs <==> IsListed(d, x)
  }

  /** What a store operation returns together with the disk it leaves behind. */
  datatype Effect = Effect(outcome: Outcome, disk: Disk)

  /** `apply_config`: copies the snapshot over the live file. */
  function Applied(d: Disk, name: string): Effect {
    var key := Utf8(name);
    if key !in d.dir then Effect(Fail(ConfigNotFound(name)), d)
    else match d.dir[key]
      case Directory => Effect(Fail(Io(NotARegularFile)), d)
      case File(bytes) => Effect(Pass, d.(live := Some(bytes)))
  }

  /** `delete_config`: removes the snapshot file. */
  function Deleted(d: Disk, name: string): Effect {
    var key := Utf8(name);
    if key !in d.dir then Effect(Fail(ConfigNotFound(name)), d)
    else match d.dir[key]
      case Directory => Effect(Fail(Io(IsADirectory)), d)
      case File(_) => Effect(Pass, d.(dir := d.dir - {key}))
  }

  /** `save_current_config`: copies the live file into the snapshot, overwriting
      any snapshot of that name. */
  function Saved(d: Disk, name: string): Effect {
    var key := Utf8(name);
    if d.live.None? then Effect(Fail(NoLiveConfig), d)
    else if !d.dirExists then Effect(Fail(Io(NoSuchDirectory)), d)
    else if key in d.dir && d.dir[key].Directory? then Effect(Fail(Io(IsADirectory)), d)
    else Effect(Pass, d.(dir := d.dir[key := File(d.live.value)]))
  }

  /** The file system the store works on. */
  class FileSystem {
    /** Whether the home directory can be resolved. */
    const homeKnown: bool
    var dirExists: bool
    var dir: map<FileName, Node>
    var live: Option<Bytes>

    constructor (homeKnown: bool, initial: Disk)
      requires initial.Valid()
      ensures this.homeKnown == homeKnown && State() == initial && Valid()
    {
      this.homeKnown := homeKnown;
      dirExists := initial.dirExists;
      dir := initial.dir;
      live := initial.live;
    }

    function State(): Disk
      reads this
    {
      Disk(dirExists, dir, live)
    }

    predicate Valid()
      reads this
    {
      State().Valid()
    }
  }

  class ConfigManager {
    /** The cached listing. The store operations take `&self` in the source and
        never refresh it: it is the listing as of `Open`. */
    const configs: seq<string>
    const fs: FileSystem

    constructor (fs: FileSystem, configs: seq<string>)
      ensures this.fs == fs && this.configs == configs
    {
      this.fs := fs;
      this.configs := configs;
    }

    /** `ConfigManager::new`: resolves the home directory, creates the snapshot
        directory when missing and reads the listing. */
    static method Open(fs: FileSystem) returns (r: Result<ConfigManager>)
      requires fs.Valid()
      modifies fs
      ensures fs.Valid()
      ensures !fs.homeKnown ==> r == Err(HomeDirUnavailable) && unchanged(fs)
      ensures fs.homeKnown ==>
        && r.Ok? && fresh(r.value) && r.value.fs == fs
        && fs.State() == old(fs.State()).(dirExists := true)
        && IsListing(r.value.configs, fs.State())
    {
      if !fs.homeKnown {
        return Err(HomeDirUnavailable);
      }
      if !fs.dirExists {
        fs.dirExists := true;
      }
      var configs := ReadConfigs(fs);
      var manager := new ConfigManager(fs, configs);
      r := Ok(manager);
    }

    /** `read_configs`: collects the regular files with UTF-8 names directly in
        the snapshot directory, in whatever order the OS enumerates them, then
        sorts the names. */
    static method ReadConfigs(fs: FileSystem) returns (configs: seq<string>)
      requires fs.Valid()
      ensures IsListing(configs, fs.State())
    {
      configs := [];
      if fs.dirExists {
        var pending := fs.dir.Keys;
        while pending != {}
          invariant pending <= fs.dir.Keys
          invariant Distinct(configs)
          invariant forall x :: x in configs <==> IsListed(fs.State(), x) && Utf8(x) !in pending
          decreases pending
        {
          var entry :| entry in pending;
          if entry.Utf8? && fs.dir[entry].File? {
            configs := configs + [entry.text];
          }
          pending := pending - {entry};
        }
      }
      var unsorted := configs;
      configs := Sort(unsorted);
      forall x ensures x in configs <==> x in unsorted {
        assert x in configs <==> x in multiset(configs);
        assert x in unsorted <==> x in multiset(unsorted);
      }
    }

    /** `apply_config`: the snapshot's contents become the live file's. The
        multiplexer reload that follows is fire-and-forget and not modelled. */
    method ApplyConfig(name: string) returns (r: Outcome)
      requires fs.Valid()
      modifies fs
      ensures fs.Valid()
      ensures Effect(r, fs.State()) == Applied(old(fs.State()), name)
    {
      var source := Utf8(name);
      if source !in fs.dir {
        return Fail(ConfigNotFound(name));
      }
      match fs.dir[source]
      case Directory =>
        r := Fail(Io(NotARegularFile));
      case File(bytes) =>
        fs.live := Some(bytes);
        r := Pass;
    }

    /** `delete_config`. */
    method DeleteConfig(name: string) returns (r: Outcome)
      requires fs.Valid()
      modifies fs
      ensures fs.Valid()
      ensures Effect(r, fs.State()) == Deleted(old(fs.State()), name)
    {
      var path := Utf8(name);
      if path !in fs.dir {
        return Fail(ConfigNotFound(name));
      }
      if fs.dir[path].Directory? {
        return Fail(Io(IsADirectory));
      }
      fs.dir := fs.dir - {path};
      r := Pass;
    }

    /** `save_current_config`. */
    method SaveCurrentConfig(name: string) returns (r: Outcome)
      requires fs.Valid()
      modifies fs
      ensures fs.Valid()
      ensures Effect(r, fs.State()) == Saved(old(fs.State()), name)
    {
      if fs.live.None? {
        return Fail(NoLiveConfig);
      }
      var dest := Utf8(name);
      if !fs.dirExists || (dest in fs.dir && fs.dir[dest].Directory?) {
        return Fail(Io(if fs.dirExists then IsADirectory else NoSuchDirectory));
      }
      fs.dir := fs.dir[dest := File(fs.live.value)];
      r := Pass;
    }
  }
}
