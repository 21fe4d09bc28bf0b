/** Compressing old log files and deleting old archives, without losing a log before its time, wherever
    a compression fails or is interrupted. */
module LogRotation {
  import opened Domain

  type FileName = name: string | name != "" witness "x"

  /** A file holds text, a complete archive of some content, or an archive that was cut short. */
  datatype Content = Text(data: string) | Gzip(of: Content) | CutShort

  datatype File = File(content: Content, modified: Instant)

  /** The last state of a log: everything written to it, and when that was. */
  datatype Log = Log(data: string, lastWrite: Instant)

  /** Where a compression ends; an interruption leaves what the failure at that point leaves. */
  datatype Stop = OpenFails | CreateFails | CopyFails | RemoveFails | Completes

  /** One entry of the directory stream and what the calls about it answer. */
  datatype Listed = Listed(name: FileName, isFile: Option<bool>, statted: bool, stop: Stop, removed: bool, tick: nat)

  const GZ_EXTENSION := ".gz"

  function GzPathFor(name: FileName): FileName {
    name + GZ_EXTENSION
  }

  /** The part after the last dot is `gz`, and something comes before it. */
  predicate IsGz(name: FileName) {
    |name| > |GZ_EXTENSION| && name[|name| - |GZ_EXTENSION|..] == GZ_EXTENSION
  }

  /** An archive, to the sweep, is a file whose name is something followed by the extension. */
  lemma IsGzExactly(name: FileName)
    ensures IsGz(name) <==> exists stem: string :: stem != "" && name == stem + ".gz"
  {
    if IsGz(name) {
      var stem := name[..|name| - 3];
      assert stem != "" && name == stem + ".gz";
    }
    if stem: string :| stem != "" && name == stem + ".gz" {
      assert name[|name| - 3..] == ".gz";
    }
  }

  /** A name that is not an archive's. */
  ghost predicate Ordinary(name: FileName) {
    !exists stem: string :: stem != "" && name == stem + ".gz"
  }

  /** An age that cannot be measured, because the file is from the future, reaches no threshold. */
  predicate OlderThan(modified: Instant, now: Instant, threshold: Duration) {
    modified <= now && now - modified >= threshold
  }

  lemma GzPathIsGz(a: FileName, b: FileName)
    ensures IsGz(GzPathFor(a))
    ensures GzPathFor(a) == GzPathFor(b) ==> a == b
    ensures GzPathFor(a) != a
  {
  }

  /** The full content of a log is there, as the original or as a complete archive, or its time is over. */
  ghost predicate Kept(files: map<FileName, File>, name: FileName, log: Log, clock: Instant,
                       compressAfter: Duration, retention: Duration)
  {
    || name in files
    || (GzPathFor(name) in files && files[GzPathFor(name)].content == Gzip(Text(log.data))
        && files[GzPathFor(name)].modified >= log.lastWrite + compressAfter)
    || clock >= log.lastWrite + compressAfter + retention
  }

  ghost predicate LogOk(files: map<FileName, File>, name: FileName, log: Log, clock: Instant,
                        compressAfter: Duration, retention: Duration)
  {
    && !IsGz(name) && log.lastWrite <= clock
    && (name in files ==> files[name] == File(Text(log.data), log.lastWrite))
    && Kept(files, name, log, clock, compressAfter, retention)
  }

  datatype Disk = Disk(files: map<FileName, File>, clock: Instant)

  /** The disk after compressing `name`, up to the point where it stops. */
  function Compressed(d: Disk, name: FileName, stop: Stop, tick: nat): Disk {
    if name !in d.files || stop.OpenFails? || stop.CreateFails? then d
    else if stop.CopyFails? then Disk(d.files[GzPathFor(name) := File(CutShort, d.clock + tick)], d.clock + tick)
    else
      var archived := d.files[GzPathFor(name) := File(Gzip(d.files[name].content), d.clock + tick)];
      Disk(if stop.RemoveFails? then archived else archived - {name}, d.clock + tick)
  }

  /** Where a compression stops, and what it leaves: the original until the very end, and the archive, if it
      has been begun, cut short or complete. */
  lemma CompressedExactly(d: Disk, name: FileName, stop: Stop, tick: nat)
    requires name in d.files
    ensures var after := Compressed(d, name, stop, tick).files; var archive := name + ".gz";
            && (name in after <==> stop != Completes) && (name in after ==> after[name] == d.files[name])
            && (stop == OpenFails || stop == CreateFails ==> after == d.files)
            && (stop == CopyFails ==> archive in after && after[archive].content == CutShort)
            && (stop == RemoveFails || stop == Completes ==> archive in after && after[archive].content == Gzip(d.files[name].content))
            && (forall other :: other in d.files && other != name && other != archive ==>
                  other in after && after[other] == d.files[other])
            && (forall other :: other in after ==> other in d.files || other == archive)
  {
    GzPathIsGz(name, name);
  }

  datatype Policy = Policy(compressAfter: Duration, retention: Duration)

  /** The disk after one entry of the stream has been dealt with. */
  function Visited(d: Disk, entry: Listed, now: Instant, policy: Policy): Disk {
    if entry.isFile != Some(true) || !entry.statted || entry.name !in d.files then d
    else if IsGz(entry.name) then
      if OlderThan(d.files[entry.name].modified, now, policy.retention) && entry.removed
      then d.(files := d.files - {entry.name}) else d
    else if OlderThan(d.files[entry.name].modified, now, policy.compressAfter)
    then Compressed(d, entry.name, entry.stop, entry.tick) else d
  }

  /** What a sweep does about an entry: nothing about what is not a file, is not there or cannot be asked its
      age; otherwise an archive goes when it is `retention` old, any other file is compressed when it is
      `compressAfter` old, and a younger one is left. */
  lemma VisitExactly(d: Disk, entry: Listed, now: Instant, policy: Policy)
    ensures var after := Visited(d, entry, now, policy);
            if entry.isFile == Some(true) && entry.statted && entry.name in d.files then
              var modified := d.files[entry.name].modified;
              if exists stem: string :: stem != "" && entry.name == stem + ".gz" then
                after == if modified <= now && now - modified >= policy.retention && entry.removed
                         then d.(files := d.files - {entry.name}) else d
              else
                after == if modified <= now && now - modified >= policy.compressAfter
                         then Compressed(d, entry.name, entry.stop, entry.tick) else d
            else after == d
  {
    IsGzExactly(entry.name);
  }

  function Swept(d: Disk, listing: seq<Listed>, now: Instant, policy: Policy): Disk {
    if listing == [] then d
    else Visited(Swept(d, listing[..|listing| - 1], now, policy), listing[|listing| - 1], now, policy)
  }

  /** No log that was ever written has been lost before its time. */
  ghost predicate Safe(d: Disk, logs: map<FileName, Log>, policy: Policy) {
    forall name :: name in logs ==> LogOk(d.files, name, logs[name], d.clock, policy.compressAfter, policy.retention)
  }

  lemma CompressingKeeps(d: Disk, name: FileName, stop: Stop, tick: nat, logs: map<FileName, Log>, now: Instant, policy: Policy)
    requires Safe(d, logs, policy) && now <= d.clock && name in d.files && !IsGz(name)
    requires OlderThan(d.files[name].modified, now, policy.compressAfter)
    ensures Safe(Compressed(d, name, stop, tick), logs, policy)
  {
    var after := Compressed(d, name, stop, tick);
    forall other | other in logs
      ensures LogOk(after.files, other, logs[other], after.clock, policy.compressAfter, policy.retention)
    {
      assert LogOk(d.files, other, logs[other], d.clock, policy.compressAfter, policy.retention);
      GzPathIsGz(name, other);
      GzPathIsGz(other, other);
    }
  }

  lemma RemovingKeeps(d: Disk, name: FileName, logs: map<FileName, Log>, now: Instant, policy: Policy)
    requires Safe(d, logs, policy) && now <= d.clock && name in d.files && IsGz(name)
    requires OlderThan(d.files[name].modified, now, policy.retention)
    ensures Safe(d.(files := d.files - {name}), logs, policy)
  {
  }

  lemma VisitKeeps(d: Disk, entry: Listed, now: Instant, logs: map<FileName, Log>, policy: Policy)
    requires Safe(d, logs, policy) && now <= d.clock
    ensures Safe(Visited(d, entry, now, policy), logs, policy) && now <= Visited(d, entry, now, policy).clock
  {
    if entry.isFile == Some(true) && entry.statted && entry.name in d.files {
      var modified := d.files[entry.name].modified;
      if IsGz(entry.name) && OlderThan(modified, now, policy.retention) {
        RemovingKeeps(d, entry.name, logs, now, policy);
      } else if !IsGz(entry.name) && OlderThan(modified, now, policy.compressAfter) {
        CompressingKeeps(d, entry.name, entry.stop, entry.tick, logs, now, policy);
      }
    }
  }

  /** The log directory, the process clock, and the history of what has been logged. */
  class LogDir {
    const policy: Policy
    var disk: Disk
    ghost var logs: map<FileName, Log>

    ghost predicate Valid()
      reads this
    {
      Safe(disk, logs, policy)
    }

    constructor (policy: Policy, now: Instant)
      ensures this.policy == policy && disk == Disk(map[], now) && logs == map[] && Valid()
    {
      this.policy := policy;
      disk := Disk(map[], now);
      logs := map[];
    }

    /** The logger starts a new log, or adds to one that has not been compressed yet. */
    method Write(name: FileName, text: string)
      requires Valid() && Ordinary(name)
      requires name in logs <==> name in disk.files
      modifies this
      ensures Valid() && disk.clock == old(disk.clock)
      ensures logs == old(logs)[name := Log((if name in old(logs) then old(logs)[name].data else "") + text, disk.clock)]
    {
      IsGzExactly(name);
      var before := if name in disk.files && disk.files[name].content.Text? then disk.files[name].content.data else "";
      assert name in logs ==> LogOk(disk.files, name, logs[name], disk.clock, policy.compressAfter, policy.retention);
      disk := disk.(files := disk.files[name := File(Text(before + text), disk.clock)]);
      logs := logs[name := Log(before + text, disk.clock)];
      forall other | other in logs
        ensures LogOk(disk.files, other, logs[other], disk.clock, policy.compressAfter, policy.retention)
      {
        GzPathIsGz(other, name);
        assert other != name ==>
            LogOk(old(disk.files), other, old(logs)[other], disk.clock, policy.compressAfter, policy.retention);
      }
    }

    method Wait(now: Instant)
      requires Valid() && now >= disk.clock
      modifies this`disk
      ensures Valid() && disk == old(disk).(clock := now)
    {
      disk := disk.(clock := now);
    }

    /** Reads the file, writes the archive beside it, then deletes the original. */
    method Compress(name: FileName, stop: Stop, tick: nat) returns (ok: bool)
      modifies this`disk
      ensures disk == Compressed(old(disk), name, stop, tick)
      ensures ok <==> name in old(disk).files && stop.Completes?
    {
      if name !in disk.files || stop.OpenFails? {
        return false;
      }
      var source := disk.files[name].content;
      if stop.CreateFails? {
        return false;
      }
      GzPathIsGz(name, name);
      disk := Disk(disk.files[GzPathFor(name) := File(CutShort, disk.clock)], disk.clock + tick);
      if stop.CopyFails? {
        disk := disk.(files := disk.files[GzPathFor(name) := File(CutShort, disk.clock)]);
        return false;
      }
      disk := disk.(files := disk.files[GzPathFor(name) := File(Gzip(source), disk.clock)]);
      if stop.RemoveFails? {
        return false;
      }
      disk := disk.(files := disk.files - {name});
      ok := true;
    }

    /** One sweep over whatever the directory stream yields, past the failure of any one entry. */
    method RunOnce(listing: seq<Listed>)
      requires Valid()
      modifies this`disk
      ensures Valid() && disk == Swept(old(disk), listing, old(disk).clock, policy)
    {
      var now := disk.clock;
      for i := 0 to |listing|
        invariant Valid() && now <= disk.clock
        invariant disk == Swept(old(disk), listing[..i], now, policy)
      {
        var entry := listing[i];
        assert listing[..i + 1][..i] == listing[..i];
        VisitKeeps(disk, entry, now, logs, policy);
        if entry.isFile != Some(true) || !entry.statted || entry.name !in disk.files {
          continue;
        }
        var modified := disk.files[entry.name].modified;
        if IsGz(entry.name) {
          if OlderThan(modified, now, policy.retention) && entry.removed {
            disk := disk.(files := disk.files - {entry.name});
          }
        } else if OlderThan(modified, now, policy.compressAfter) {
          var ok := Compress(entry.name, entry.stop, entry.tick);
        }
      }
      assert listing[..|listing|] == listing;
    }

    /** Sweeps at each tick of an interval timer; a tick that has come due during a sweep is served at once. */
    method RunTicks(ticks: seq<Tick>)
      requires Valid()
      modifies this`disk
      ensures Valid() && disk == AfterTicks(old(disk), ticks, policy)
    {
      for i := 0 to |ticks|
        invariant Valid() && disk == AfterTicks(old(disk), ticks[..i], policy)
      {
        assert ticks[..i + 1][..i] == ticks[..i];
        Wait(if ticks[i].at > disk.clock then ticks[i].at else disk.clock);
        RunOnce(ticks[i].listing);
      }
      assert ticks[..|ticks|] == ticks;
    }
  }

  /** When a sweep is due, and what the directory stream then yields. */
  datatype Tick = Tick(at: Instant, listing: seq<Listed>)

  function AfterTicks(d: Disk, ticks: seq<Tick>, policy: Policy): Disk {
    if ticks == [] then d
    else
      var before := AfterTicks(d, ticks[..|ticks| - 1], policy);
      var tick := ticks[|ticks| - 1];
      var now := if tick.at > before.clock then tick.at else before.clock;
      Swept(before.(clock := now), tick.listing, now, policy)
  }

  // ----- histories -----

  datatype Event =
    | Logged(name: FileName, text: string)
    | Passed(to: Instant)
    | Ran(listing: seq<Listed>)
    | Interrupted(listing: seq<Listed>, name: FileName, stop: Stop, tick: nat)

  /** What happens next respects the clock and does not reuse the name of a log already compressed; an
      interrupted compression is one the sweep had reason to begin. */
  ghost predicate Allowed(d: Disk, logs: map<FileName, Log>, e: Event, policy: Policy) {
    match e
    case Logged(name, _) => Ordinary(name) && (name in logs <==> name in d.files)
    case Passed(to) => to >= d.clock
    case Ran(_) => true
    case Interrupted(listing, name, _, _) =>
      var reached := Swept(d, listing, d.clock, policy);
      name in reached.files && Ordinary(name) && OlderThan(reached.files[name].modified, d.clock, policy.compressAfter)
  }

  function LoggedSoFar(logs: map<FileName, Log>, name: FileName): string {
    if name in logs then logs[name].data else ""
  }

  function DiskAfter(d: Disk, logs: map<FileName, Log>, e: Event, policy: Policy): Disk {
    match e
    case Logged(name, text) => d.(files := d.files[name := File(Text(LoggedSoFar(logs, name) + text), d.clock)])
    case Passed(to) => d.(clock := to)
    case Ran(listing) => Swept(d, listing, d.clock, policy)
    case Interrupted(listing, name, stop, tick) => Compressed(Swept(d, listing, d.clock, policy), name, stop, tick)
  }

  function LogsAfter(d: Disk, logs: map<FileName, Log>, e: Event): map<FileName, Log> {
    match e
    case Logged(name, text) => logs[name := Log(LoggedSoFar(logs, name) + text, d.clock)]
    case _ => logs
  }

  lemma {:induction false} SweepKeeps(d: Disk, listing: seq<Listed>, now: Instant, logs: map<FileName, Log>, policy: Policy)
    requires Safe(d, logs, policy) && now <= d.clock
    ensures Safe(Swept(d, listing, now, policy), logs, policy) && now <= Swept(d, listing, now, policy).clock
  {
    if listing == [] {
    } else {
      SweepKeeps(d, listing[..|listing| - 1], now, logs, policy);
      VisitKeeps(Swept(d, listing[..|listing| - 1], now, policy), listing[|listing| - 1], now, logs, policy);
    }
  }

  lemma LoggingKeeps(d: Disk, name: FileName, text: string, logs: map<FileName, Log>, policy: Policy)
    requires Safe(d, logs, policy) && Allowed(d, logs, Logged(name, text), policy)
    requires policy.compressAfter + policy.retention >= 0
    ensures Safe(DiskAfter(d, logs, Logged(name, text), policy), LogsAfter(d, logs, Logged(name, text)), policy)
  {
    IsGzExactly(name);
  }

  lemma EventKeeps(d: Disk, logs: map<FileName, Log>, e: Event, policy: Policy)
    requires Safe(d, logs, policy) && Allowed(d, logs, e, policy) && policy.compressAfter + policy.retention >= 0
    ensures Safe(DiskAfter(d, logs, e, policy), LogsAfter(d, logs, e), policy)
  {
    match e {
      case Logged(name, text) => LoggingKeeps(d, name, text, logs, policy);
      case Passed(to) =>
      case Ran(listing) => SweepKeeps(d, listing, d.clock, logs, policy);
      case Interrupted(listing, name, stop, tick) =>
        SweepKeeps(d, listing, d.clock, logs, policy);
        IsGzExactly(name);
        CompressingKeeps(Swept(d, listing, d.clock, policy), name, stop, tick, logs, d.clock, policy);
    }
  }

  /** A history of logging, waiting, sweeps and interrupted sweeps, from an empty directory. */
  ghost predicate History(disks: seq<Disk>, logs: seq<map<FileName, Log>>, events: seq<Event>, policy: Policy) {
    && |disks| == |logs| == |events| + 1 && disks[0].files == map[] && logs[0] == map[]
    && forall k :: 0 <= k < |events| ==>
         && Allowed(disks[k], logs[k], events[k], policy)
         && disks[k + 1] == DiskAfter(disks[k], logs[k], events[k], policy)
         && logs[k + 1] == LogsAfter(disks[k], logs[k], events[k])
  }

  /** At every point of every history, until compressAfter + retention past a log's last write, everything
      ever written to it is there, as the original or as a complete archive beside it. */
  lemma NothingLostBeforeItsTime(disks: seq<Disk>, logs: seq<map<FileName, Log>>, events: seq<Event>,
                                 policy: Policy, k: nat, name: FileName)
    requires History(disks, logs, events, policy) && k < |disks| && policy.compressAfter + policy.retention >= 0
    requires name in logs[k] && disks[k].clock < logs[k][name].lastWrite + policy.compressAfter + policy.retention
    ensures var files := disks[k].files; var log := logs[k][name];
            || (name in files && files[name] == File(Text(log.data), log.lastWrite))
            || (name + ".gz" in files && files[name + ".gz"].content == Gzip(Text(log.data)))
  {
    HistorySafe(disks, logs, events, policy, k);
    assert LogOk(disks[k].files, name, logs[k][name], disks[k].clock, policy.compressAfter, policy.retention);
  }

  /** What has been written to a log is what its events wrote, in order; any ordinary name may be logged to
      as long as it is new or its file is still there. */
  lemma LoggingExactly(d: Disk, logs: map<FileName, Log>, name: FileName, text: string, policy: Policy)
    requires forall stem: string :: stem != "" ==> name != stem + ".gz"
    requires name in logs <==> name in d.files
    ensures Allowed(d, logs, Logged(name, text), policy)
    ensures LogsAfter(d, logs, Logged(name, text))
            == logs[name := Log((if name in logs then logs[name].data else "") + text, d.clock)]
    ensures DiskAfter(d, logs, Logged(name, text), policy).files
            == d.files[name := File(Text((if name in logs then logs[name].data else "") + text), d.clock)]
  {
  }

  lemma {:induction false} HistorySafe(disks: seq<Disk>, logs: seq<map<FileName, Log>>, events: seq<Event>, policy: Policy, k: nat)
    requires History(disks, logs, events, policy) && k < |disks| && policy.compressAfter + policy.retention >= 0
    ensures Safe(disks[k], logs[k], policy)
  {
    if k == 0 {
    } else {
      HistorySafe(disks, logs, events, policy, k - 1);
      EventKeeps(disks[k - 1], logs[k - 1], events[k - 1], policy);
      assert disks[k - 1 + 1] == DiskAfter(disks[k - 1], logs[k - 1], events[k - 1], policy);
      assert logs[k - 1 + 1] == LogsAfter(disks[k - 1], logs[k - 1], events[k - 1]);
    }
  }

  // ----- a sweep does its work -----

  lemma {:induction false} GoneStaysGone(d: Disk, listing: seq<Listed>, now: Instant, policy: Policy, name: FileName)
    requires name !in d.files && Ordinary(name)
    ensures name !in Swept(d, listing, now, policy).files
  {
    if listing == [] {
    } else {
      var before := Swept(d, listing[..|listing| - 1], now, policy);
      var entry := listing[|listing| - 1];
      GoneStaysGone(d, listing[..|listing| - 1], now, policy, name);
      GzPathIsGz(entry.name, entry.name);
      IsGzExactly(name);
    }
  }

  lemma {:induction false} SweptInTwo(d: Disk, first: seq<Listed>, second: seq<Listed>, now: Instant, policy: Policy)
    ensures Swept(d, first + second, now, policy) == Swept(Swept(d, first, now, policy), second, now, policy)
  {
    if second == [] {
      assert first + second == first;
    } else {
      var n := |second| - 1;
      assert (first + second)[..|first + second| - 1] == first + second[..n];
      SweptInTwo(d, first, second[..n], now, policy);
    }
  }

  /** A young archive whose original is gone outlives the sweep as it is. */
  lemma {:induction false} ArchiveStays(d: Disk, listing: seq<Listed>, now: Instant, policy: Policy, name: FileName)
    requires name !in d.files && Ordinary(name) && name + ".gz" in d.files
    requires !(d.files[name + ".gz"].modified <= now && now - d.files[name + ".gz"].modified >= policy.retention)
    ensures var after := Swept(d, listing, now, policy).files;
            name + ".gz" in after && after[name + ".gz"] == d.files[name + ".gz"]
  {
    if listing == [] {
    } else {
      var n := |listing| - 1;
      ArchiveStays(d, listing[..n], now, policy, name);
      GoneStaysGone(d, listing[..n], now, policy, name);
      GzPathIsGz(listing[n].name, name);
      GzPathIsGz(name, name);
    }
  }

  /** A sweep is what comes before an entry, the visit to it, and what comes after. */
  lemma SweptAround(d: Disk, listing: seq<Listed>, now: Instant, policy: Policy, i: nat)
    requires i < |listing|
    ensures Swept(d, listing, now, policy)
            == Swept(Visited(Swept(d, listing[..i], now, policy), listing[i], now, policy), listing[i + 1..], now, policy)
  {
    assert listing[..i + 1][..i] == listing[..i];
    assert listing == listing[..i + 1] + listing[i + 1..];
    SweptInTwo(d, listing[..i + 1], listing[i + 1..], now, policy);
  }

  lemma VisitCompresses(d: Disk, entry: Listed, now: Instant, policy: Policy)
    requires entry.isFile == Some(true) && entry.statted && entry.stop.Completes? && now <= d.clock
    requires Ordinary(entry.name) && entry.name in d.files
    requires d.files[entry.name].modified <= now && now - d.files[entry.name].modified >= policy.compressAfter
    ensures var after := Visited(d, entry, now, policy).files;
            && entry.name !in after && entry.name + ".gz" in after
            && after[entry.name + ".gz"].content == Gzip(d.files[entry.name].content) && after[entry.name + ".gz"].modified >= now
  {
    IsGzExactly(entry.name);
    GzPathIsGz(entry.name, entry.name);
  }

  /** An ordinary file at least `compressAfter` old when its entry comes up, and whose compression completes,
      is gone at the end of the sweep, and its complete archive is there. */
  lemma SweepCompresses(d: Disk, listing: seq<Listed>, policy: Policy, i: nat)
    requires i < |listing| && listing[i].isFile == Some(true) && listing[i].statted && listing[i].stop.Completes?
    requires var name := listing[i].name; var at := Swept(d, listing[..i], d.clock, policy).files;
             Ordinary(name) && name in at && at[name].modified <= d.clock && d.clock - at[name].modified >= policy.compressAfter
    ensures var name := listing[i].name; var at := Swept(d, listing[..i], d.clock, policy).files;
            var after := Swept(d, listing, d.clock, policy).files;
            && name !in after
            && (policy.retention > 0 ==> name + ".gz" in after && after[name + ".gz"].content == Gzip(at[name].content))
  {
    var before := Swept(d, listing[..i], d.clock, policy);
    var visited := Visited(before, listing[i], d.clock, policy);
    ClockGoesOn(d, listing[..i], d.clock, policy);
    SweptAround(d, listing, d.clock, policy, i);
    VisitCompresses(before, listing[i], d.clock, policy);
    if policy.retention > 0 {
      ArchiveStays(visited, listing[i + 1..], d.clock, policy, listing[i].name);
    }
    GoneStaysGone(visited, listing[i + 1..], d.clock, policy, listing[i].name);
  }

  lemma {:induction false} ClockGoesOn(d: Disk, listing: seq<Listed>, now: Instant, policy: Policy)
    ensures d.clock <= Swept(d, listing, now, policy).clock
  {
    if listing == [] {
    } else {
      ClockGoesOn(d, listing[..|listing| - 1], now, policy);
    }
  }

  /** An archive without its original, at least `retention` old when its entry comes up, and whose removal
      is answered, is gone at the end of the sweep. */
  lemma SweepExpires(d: Disk, listing: seq<Listed>, policy: Policy, i: nat, stem: FileName)
    requires i < |listing| && listing[i].isFile == Some(true) && listing[i].statted && listing[i].removed
    requires listing[i].name == stem + ".gz" && Ordinary(stem)
    requires var at := Swept(d, listing[..i], d.clock, policy).files;
             && stem !in at
             && (stem + ".gz" in at ==>
                   at[stem + ".gz"].modified <= d.clock && d.clock - at[stem + ".gz"].modified >= policy.retention)
    ensures stem + ".gz" !in Swept(d, listing, d.clock, policy).files
  {
    var before := Swept(d, listing[..i], d.clock, policy);
    SweptAround(d, listing, d.clock, policy, i);
    VisitExpires(before, listing[i], d.clock, policy, stem);
    ArchiveStaysGone(Visited(before, listing[i], d.clock, policy), listing[i + 1..], d.clock, policy, stem);
  }

  lemma VisitExpires(d: Disk, entry: Listed, now: Instant, policy: Policy, stem: FileName)
    requires entry.isFile == Some(true) && entry.statted && entry.removed && entry.name == stem + ".gz" && stem !in d.files
    requires stem + ".gz" in d.files ==>
               d.files[stem + ".gz"].modified <= now && now - d.files[stem + ".gz"].modified >= policy.retention
    ensures stem + ".gz" !in Visited(d, entry, now, policy).files && stem !in Visited(d, entry, now, policy).files
  {
    IsGzExactly(entry.name);
  }

  lemma {:induction false} ArchiveStaysGone(d: Disk, listing: seq<Listed>, now: Instant, policy: Policy, stem: FileName)
    requires stem !in d.files && Ordinary(stem) && stem + ".gz" !in d.files
    ensures stem + ".gz" !in Swept(d, listing, now, policy).files
  {
    if listing == [] {
    } else {
      var n := |listing| - 1;
      ArchiveStaysGone(d, listing[..n], now, policy, stem);
      GoneStaysGone(d, listing[..n], now, policy, stem);
      GzPathIsGz(listing[n].name, stem);
    }
  }

  /** An ordinary file too young to compress is at the end of the sweep as it was. */
  lemma {:induction false} YoungFilesStay(d: Disk, listing: seq<Listed>, now: Instant, policy: Policy, name: FileName)
    requires Ordinary(name) && name in d.files
    requires !(d.files[name].modified <= now && now - d.files[name].modified >= policy.compressAfter)
    ensures var after := Swept(d, listing, now, policy).files; name in after && after[name] == d.files[name]
  {
    if listing == [] {
    } else {
      var n := |listing| - 1;
      YoungFilesStay(d, listing[..n], now, policy, name);
      GzPathIsGz(listing[n].name, name);
      IsGzExactly(name);
    }
  }
}
