/** The names under which a cluster's containers, network and directories are found again: computed
    from its id, and never shared by two clusters. */
module Names {
  import opened Domain
  import opened Lifecycle
  import opened LifecycleSafety

  // ----- cluster ids as text -----

  /** The digits of the id alphabet: no I, L, O or U. */
  function DigitChar(d: nat): char
    requires d < 32
  {
    if d < 10 then '0' + d as char
    else if d < 18 then 'A' + (d - 10) as char
    else if d < 20 then 'J' + (d - 18) as char
    else if d < 22 then 'M' + (d - 20) as char
    else if d < 27 then 'P' + (d - 22) as char
    else 'V' + (d - 27) as char
  }

  function DigitValue(c: char): int {
    if '0' <= c <= '9' then (c - '0') as int
    else if 'A' <= c <= 'H' then (c - 'A') as int + 10
    else if 'J' <= c <= 'K' then (c - 'J') as int + 18
    else if 'M' <= c <= 'N' then (c - 'M') as int + 20
    else if 'P' <= c <= 'T' then (c - 'P') as int + 22
    else if 'V' <= c <= 'Z' then (c - 'V') as int + 27
    else -1
  }

  lemma DigitRoundTrip(d: nat)
    requires d < 32
    ensures DigitValue(DigitChar(d)) == d
  {
  }

  /** The alphabet, digit by digit. */
  lemma DigitsExactly(d: nat)
    requires d < 32
    ensures DigitChar(d) == "0123456789ABCDEFGHJKMNPQRSTVWXYZ"[d]
  {
  }

  /** The last `width` digits of `n`, most significant first. */
  function Digits(n: nat, width: nat): (text: string)
    ensures |text| == width
  {
    if width == 0 then "" else Digits(n / 32, width - 1) + [DigitChar(n % 32)]
  }

  function Parsed(text: string): int {
    if text == "" then 0 else Parsed(text[..|text| - 1]) * 32 + DigitValue(text[|text| - 1])
  }

  function Pow32(k: nat): nat {
    if k == 0 then 1 else 32 * Pow32(k - 1)
  }

  lemma {:induction false} DigitsRoundTrip(n: nat, width: nat)
    requires n < Pow32(width)
    ensures Parsed(Digits(n, width)) == n
  {
    if width == 0 {
    } else {
      DigitsRoundTrip(n / 32, width - 1);
      DigitRoundTrip(n % 32);
      var text := Digits(n, width);
      assert text[..|text| - 1] == Digits(n / 32, width - 1);
    }
  }

  lemma {:induction false} Pow32Add(a: nat, b: nat)
    ensures Pow32(a + b) == Pow32(a) * Pow32(b)
  {
    if a == 0 {
    } else {
      Pow32Add(a - 1, b);
    }
  }

  const ULID_LEN: nat := 26

  function IdText(id: ClusterId): (text: string)
    ensures |text| == ULID_LEN
  {
    Digits(id.ulid, ULID_LEN)
  }

  /** An id of 128 bits fits in 26 digits of five bits. */
  lemma IdFits()
    ensures Pow32(ULID_LEN) == 0x4_00000000_00000000_00000000_00000000
  {
    assert Pow32(2) == 0x400;
    Pow32Add(2, 2);
    Pow32Add(4, 4);
    Pow32Add(8, 8);
    Pow32Add(16, 8);
    Pow32Add(24, 2);
  }

  /** The text of an id determines the id. */
  lemma IdTextInjective(a: ClusterId, b: ClusterId)
    requires IdText(a) == IdText(b)
    ensures a == b
  {
    IdFits();
    DigitsRoundTrip(a.ulid, ULID_LEN);
    DigitsRoundTrip(b.ulid, ULID_LEN);
  }

  // ----- containers and networks -----

  const SERVICE_SUFFIXES: seq<string> := ["db", "rest", "auth", "kong", "functions"]

  function PostgresContainerName(id: ClusterId): string {
    "app-salmon-" + IdText(id)
  }

  function SupabaseContainerName(id: ClusterId, suffix: string): string {
    "app-salmon-" + IdText(id) + "-" + suffix
  }

  function NetworkName(id: ClusterId): string {
    "app-salmon-net-" + IdText(id)
  }

  /** The name the container runtime knows a resource by. */
  function RuntimeName(id: ClusterId, name: ResourceName): string {
    match name
    case Network => NetworkName(id)
    case Container(suffix) => if suffix == "" then PostgresContainerName(id) else SupabaseContainerName(id, suffix)
  }

  /** Every resource either kind of cluster is made of. */
  predicate Known(name: ResourceName) {
    match name
    case Network => true
    case Container(suffix) => suffix == "" || suffix in SERVICE_SUFFIXES
  }

  lemma ContainerNameShape(id: ClusterId, name: ResourceName)
    requires Known(name) && name.Container?
    ensures var text := RuntimeName(id, name);
            && |text| >= 37 && text[11..37] == IdText(id)
            && (if name.suffix == "" then |text| == 37 else |text| > 38 && text[38..] == name.suffix)
  {
  }

  lemma NetworkNameShape(id: ClusterId)
    ensures |NetworkName(id)| == 41 && NetworkName(id)[15..] == IdText(id)
  {
  }

  /** Across ids, kinds and resources no two things ever have the same name. */
  lemma NamesInjective(a: ClusterId, m: ResourceName, b: ClusterId, n: ResourceName)
    requires Known(m) && Known(n) && RuntimeName(a, m) == RuntimeName(b, n)
    ensures a == b && m == n
  {
    if m.Container? { ContainerNameShape(a, m); } else { NetworkNameShape(a); }
    if n.Container? { ContainerNameShape(b, n); } else { NetworkNameShape(b); }
    assert |RuntimeName(a, m)| == |RuntimeName(b, n)|;
    IdTextInjective(a, b);
  }

  /** The names as the runtime sees them. */
  lemma NamesExactly(id: ClusterId)
    ensures RuntimeName(id, Network) == "app-salmon-net-" + IdText(id)
    ensures RuntimeName(id, Container("")) == "app-salmon-" + IdText(id)
    ensures forall suffix :: suffix in {"db", "rest", "auth", "kong", "functions"} ==>
              Known(Container(suffix)) && RuntimeName(id, Container(suffix)) == "app-salmon-" + IdText(id) + "-" + suffix
  {
    var s := SERVICE_SUFFIXES;
    assert s[0] == "db" && s[1] == "rest" && s[2] == "auth" && s[3] == "kong" && s[4] == "functions";
  }

  lemma PlansAreKnown(kind: ServiceKind)
    ensures forall i :: 0 <= i < |Plan(kind)| ==> Known(Plan(kind)[i])
  {
  }

  // ----- directories -----

  function Decimal(n: nat): (text: string)
    ensures |text| > 0
  {
    if n < 10 then ['0' + n as char] else Decimal(n / 10) + ['0' + (n % 10) as char]
  }

  function DecimalValue(text: string): int {
    if text == "" then 0 else DecimalValue(text[..|text| - 1]) * 10 + (text[|text| - 1] as int - '0' as int)
  }

  lemma {:induction false} DecimalRoundTrip(n: nat)
    ensures DecimalValue(Decimal(n)) == n
  {
    if n < 10 {
      assert Decimal(n)[..0] == "";
    } else {
      DecimalRoundTrip(n / 10);
      assert Decimal(n)[..|Decimal(n)| - 1] == Decimal(n / 10);
    }
  }

  lemma {:induction false} DecimalHasNoSlash(n: nat)
    ensures '/' !in Decimal(n)
  {
    if n < 10 {
    } else {
      DecimalHasNoSlash(n / 10);
    }
  }

  function SlotDir(slot: nat): string {
    "slot-" + Decimal(slot)
  }

  /** `base` joined with the account's name and the slot's directory. */
  function WorkerDataDir(base: string, account: string, slot: nat): string {
    base + "/" + account + "/" + SlotDir(slot)
  }

  /** What follows the last separator. */
  function LastComponent(path: string): string {
    if path == "" || path[|path| - 1] == '/' then "" else LastComponent(path[..|path| - 1]) + [path[|path| - 1]]
  }

  lemma {:induction false} LastComponentOf(dir: string, name: string)
    requires '/' !in name
    ensures LastComponent(dir + "/" + name) == name
  {
    var path := dir + "/" + name;
    if name == "" {
    } else {
      assert path[..|path| - 1] == dir + "/" + name[..|name| - 1];
      LastComponentOf(dir, name[..|name| - 1]);
      assert name == name[..|name| - 1] + [name[|name| - 1]];
    }
  }

  /** Under one base, a directory determines the account and the slot it is for. */
  lemma WorkerDataDirInjective(base: string, a: string, m: nat, b: string, n: nat)
    requires WorkerDataDir(base, a, m) == WorkerDataDir(base, b, n)
    ensures a == b && m == n
  {
    DecimalHasNoSlash(m);
    DecimalHasNoSlash(n);
    LastComponentOf(base + "/" + a, SlotDir(m));
    LastComponentOf(base + "/" + b, SlotDir(n));
    assert Decimal(m) == SlotDir(m)[5..] && Decimal(n) == SlotDir(n)[5..];
    DecimalRoundTrip(m);
    DecimalRoundTrip(n);
    var path := WorkerDataDir(base, a, m);
    assert |a| == |b|;
    assert a == path[|base| + 1..|base| + 1 + |a|];
    assert b == WorkerDataDir(base, b, n)[|base| + 1..|base| + 1 + |b|];
  }

  /** Two spawn tasks at work never stage an upload, or prepare data, at the same path. */
  lemma StagingPathsApart(cfg: Settings, ss: seq<System>, steps: seq<Step>, k: nat, c: ClusterId, d: ClusterId, base: string)
    requires Run(cfg, ss, steps) && k < |ss| && DistinctAccounts(cfg)
    requires Active(ss[k], c) && Active(ss[k], d) && c != d
    requires ss[k].spawns[c].cluster.worker.Some? && ss[k].spawns[d].cluster.worker.Some?
    ensures var a := ss[k].spawns[c].cluster; var b := ss[k].spawns[d].cluster;
            WorkerDataDir(base, a.worker.value.name, a.slot) != WorkerDataDir(base, b.worker.value.name, b.slot)
  {
    SpawnsApart(cfg, ss, steps, k, c, d);
    var a := ss[k].spawns[c].cluster;
    var b := ss[k].spawns[d].cluster;
    if WorkerDataDir(base, a.worker.value.name, a.slot) == WorkerDataDir(base, b.worker.value.name, b.slot) {
      WorkerDataDirInjective(base, a.worker.value.name, a.slot, b.worker.value.name, b.slot);
    }
  }
}
